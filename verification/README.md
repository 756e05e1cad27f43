# Bucket list and supporting algorithms: a verified model

This project models the bucket list of DigitalBits core, and the small algorithms of its library
directory that carry a real proof obligation, and proves what they are for.

The bucket list stores the whole ledger as a log-structured merge tree. It has eleven levels. Each
level has a `curr` bucket, a `snap` bucket and possibly a pending merge `next`. A bucket is a strictly
key-sorted sequence of INIT, LIVE and DEAD entries. Closing a ledger visits the levels oldest first.
A level that is due hands its `curr` to its `snap`; the next level commits its pending merge and starts
a new one; then the newest level takes in the batch of the ledger.

## How the model is built

- `LedgerKeys`, `Buckets`, `Lifecycle`: the order on keys, buckets, and the table that merges two
  entries of one key. A *slot* is what a bucket says about one key (nothing, INIT, LIVE, DEAD); a
  *chain* is the list of slots of one key through all 22 positions of the bucket list, newest first.
- `BucketMerge`, `BucketMergeLoop`: the merge as a function, and the one-pass merge with its input,
  shadow and output iterators, proved equal to it.
- `Schedule`, `LedgerSpans`: when levels spill, and which ledgers each bucket spans. The 32-bit
  arithmetic of the size computations is written out with its wrap-around.
- `BucketLevels`, `BucketList` (module `BucketListObject`): closing a ledger, resolving finished
  merges, saving and restarting; as functions of the levels and as a class that updates them.
- `ChainSteps`, `BucketShape`, `BucketInvariant`, `BucketClosing`, `BucketRuns`: one invariant for all
  protocol versions, kept by every step. A run is any sequence of ledger closings (with any batch and
  any set of merges that happen to be finished) and restarts (with any merges saved as nothing or by
  name).
- `BucketSafety`: a condition on the merges a close starts, under which nothing can go wrong later.
- `BucketTheorems`, `BucketUpgrade`, `BucketTiming`, `BucketContents`, `BucketAlgebra`, `BucketRevival`:
  the theorems about whole runs and whole buckets, and a run on which the old merges go wrong.
- `BucketApplicator` (module `BucketApplication`): applying a bucket to the ledger in batches.
- `ArgumentPermutation`: the in-place exchange of two blocks of an argument vector.
- `UInt128`, `UInt128Division`: 128-bit arithmetic on two 64-bit words.
- `SipHash`, `SipHashVector`: SipHash-2-4 fed in pieces, and the test vector of the SipHash paper.
- `BitAccess`, `BitSets`: sets as vectors of words.
- `BaseN`, `BaseNDecoding`, `BaseNCanonical`: base 16, 32 and 64.
- `JsonValues`, `JsonWriting`, `JsonReading`, `JsonRoundTrip`, `JsonReadable`, `JsonObjects`,
  `JsonLeniency`, `JsonForms`, `JsonReader`: writing and reading JSON.

`Bits` and `Outcomes` hold shared definitions. Shifts and masks are written as arithmetic on natural
numbers; words carry their width in their type.

## What turned out not to hold as it stands

- Merging is not associative on all legal chains. The two groupings differ exactly for keys that were
  created, deleted, and then touched as if they existed (`MergeAssociativeIff`, `GroupingShows`). A
  batch that updates or deletes only what exists never does that, so the schedule's grouping does not
  matter there (`RunContents`).
- Applying a merge is not always applying its parts (`MergeForgetsDeletion`). It is, exactly when no key
  of the base map was created in the old part and deleted in the new one, or merely deleted where
  tombstones are dropped (`MergeMeaningIff`). In the list this does no harm (`LedgerRefinement`).
- Dropping shadowed entries can revive a deleted entry: a merge of buckets from before protocol 11 may
  drop a tombstone for a shadow from protocol 12 that creates the entry anew. `MixedRunRevives` is a run
  of 32 ledgers, with an upgrade from protocol 10 to 12, after which the list holds an entry that was
  deleted twice. What is exact: in every valid run, all histories stay legal and the list stays the
  ledger at every commit if and only if every commit leaves out only what may be left out of the list it
  meets (`RunKeptIff`; for one commit `CommitKeepsIff`, per key `ShiftKeepsIff`). An entry may be left out
  unless a creation would then follow what is not dead, or a reader would see what was hidden
  (`DropKeeps`).
- When that holds can be told earlier, from the merges a run starts: if none drops a tombstone for shadows
  whose oldest word about the key is its creation (`SafeDrop`), all later commits are as they should be
  (`SafeRunKeeps`). This is proved of every run from protocol 11 on, the upgrade to 12 included; of every
  run below protocol 12; of runs through older protocols, 11 and 12 in which protocol 11 lasts for
  131072 ledgers; and of every close on a list without a bucket from protocol 12 on above entries from
  before protocol 11.
- Members of a JSON object need not be separated by commas. After a member the list goes on exactly when
  the next token is a comma, or a comment whose first following token that is no comment is not '}'
  (`MemberThen`, with `CommaNotNeeded` as a witness).
- Encoding does not undo decoding in base 16, 32 and 64 on every text: characters outside the alphabet are
  lost (`NoiseIsLost`). It does exactly on the canonical texts (`EncodeUndoesDecodeIff`).

## Model

| member | source | states |
|---|---|---|
| LedgerKeys.LessAcrossTypes | src/bucket/LedgerCmp.h:57-64 | accounts come before trust lines, these before offers, then data, then claimable balances |
| LedgerKeys.LessWithinType | src/bucket/LedgerCmp.h:66-84 | within a type the holder decides, then the asset, the offer number or the name, and names are compared at the first character where they differ, a proper prefix being smaller |
| LedgerKeys.LessTotal | src/bucket/LedgerCmp.h:50-85 | of any two keys exactly one is smaller or they are the same key, over all entry types |
| LedgerKeys.LessTransitive | src/bucket/LedgerCmp.h:50-85 | the order on keys is transitive |
| Buckets.FindAtIndex | src/bucket/LedgerCmp.h:92-146 | in a sorted bucket every entry is the one its key finds, so no key occurs twice |
| Buckets.SameSlotsSameEntries | src/bucket/Bucket.cpp:583-651 | a sorted bucket is determined by what it says about each key |
| Buckets.ApplyLookup | src/bucket/Bucket.cpp:78-90 | applying a sorted bucket overwrites each key with the bucket's slot and leaves all others |
| Lifecycle.PairMerged | src/bucket/Bucket.cpp:476-523 | merging two neighbours of a legal chain meets no error, keeps the chain legal and keeps what a reader sees; also when the result is left out because newer slots are steady, or because it is a tombstone with nothing below |
| Lifecycle.PairDroppedIff | src/bucket/Bucket.cpp:199-270 | leaving the result out keeps a legal chain legal if and only if no creation then follows what is not dead, and keeps what a reader sees if and only if newer slots speak or the older ones agree |
| Lifecycle.PairMergedSteady | src/bucket/Bucket.cpp:199-270 | a part of the chain whose oldest word is not a creation stays so when neighbours in it merge |
| Lifecycle.LeftGroupingIff | src/bucket/Bucket.cpp:465-523 | three slots merge oldest first without error exactly when their chain is legal |
| Lifecycle.CombineAssociativeIff | src/bucket/Bucket.cpp:465-523 | on a legal chain both groupings of the table succeed, and agree exactly unless the key was created, deleted and then touched |
| BucketMerge.StepConsumes | src/bucket/Bucket.cpp:413-451 | a merge step consumes exactly the entries of the smallest remaining key |
| BucketMerge.StepEmits | src/bucket/Bucket.cpp:455-581 | a merge step puts the table's result for that key unless it is dropped, and fails exactly on a clash or an INIT under an old protocol |
| BucketMerge.MergeExactly | src/bucket/Bucket.cpp:345-651 | the whole merge key by key: it is refused exactly for too high a version, shadows from protocol 12 on, an INIT before protocol 11, or a new INIT over an old INIT or LIVE; else each key has the table's result, left out exactly if that is a tombstone not to be kept, or if some shadow holds the key and the result is LIVE or the merge is from before protocol 11 |
| BucketMerge.MergeSlots | src/bucket/Bucket.cpp:583-651 | for every key the output of a merge holds the table's result of the two inputs, except shadowed entries and dropped tombstones |
| BucketMerge.MergeSorted | src/bucket/Bucket.cpp:583-651 | the output of a merge is strictly sorted, so it has no duplicates |
| BucketMerge.MergeOkIff | src/bucket/Bucket.cpp:526-570 | a merge throws if and only if some key makes it throw: a new INIT over an old INIT or LIVE, or an INIT under a protocol without them |
| BucketMerge.MergeVersionBounds | src/bucket/Bucket.cpp:345-407 | the merged version is the largest of both inputs' and of those shadows' that are from before protocol 12 |
| BucketMerge.MergeWellFormed | src/bucket/Bucket.cpp:583-651 | merging well-formed buckets gives a well-formed bucket |
| BucketMerge.MergeMeaningIff | src/bucket/Bucket.cpp:413-651 | applying a merge equals applying the old and then the new bucket to a base map if and only if no key present in the base was created and then deleted by the two (or deleted, where tombstones are dropped) |
| BucketMergeLoop.BucketOutputIterator.constructor | src/bucket/BucketOutputIterator.cpp:37-64 | an output iterator starts with no entries |
| BucketMergeLoop.BucketOutputIterator.Put | src/bucket/BucketOutputIterator.cpp:66-109 | an entry is appended, replaces a buffered entry of the same key, or is dropped when it is a tombstone and those are not kept; an INIT is refused under an old protocol |
| BucketMergeLoop.BucketOutputIterator.GetBucket | src/bucket/BucketOutputIterator.cpp:112-140 | the bucket holds what was put, the buffered entry included |
| BucketMergeLoop.Advance | src/bucket/Bucket.cpp:252-266 | a shadow iterator moved past smaller keys stands on the key if and only if the shadow holds it |
| BucketMergeLoop.ScanShadows | src/bucket/Bucket.cpp:249-267 | the scan reports a shadow exactly when some shadow bucket holds the key, though iterators only move forward |
| BucketMergeLoop.MaybePut | src/bucket/Bucket.cpp:198-270 | an entry is put unless it is a tombstone not to be kept, or some shadow holds its key and it is LIVE or the merge does not keep lifecycle entries |
| BucketMergeLoop.CalculateMergeProtocolVersion | src/bucket/Bucket.cpp:345-407 | the version is the largest of the inputs and the older shadows; too high a version and shadows from protocol 12 on are refused |
| BucketMergeLoop.MergeStep | src/bucket/Bucket.cpp:413-581 | what the iterators take next and put, against the step of the merge function |
| BucketMergeLoop.Merge | src/bucket/Bucket.cpp:583-651 | the one-pass merge with iterators computes the merge function, errors included |
| BucketFresh.ConvertToBucketEntry | src/bucket/Bucket.cpp:92-129 | the three lists of a batch become one sorted list of entries |
| BucketFresh.SortKeeps | src/bucket/Bucket.cpp:121-128 | sorting distinct keys gives a strictly sorted bucket with the same slots |
| BucketFresh.FreshApplies | src/bucket/Bucket.cpp:131-163 | applying the fresh bucket of a ledger does to the map exactly what its created, updated and deleted entries say |
| BucketFresh.FreshSlots | src/bucket/Bucket.cpp:92-163 | the fresh bucket has the ledger's version from protocol 11 on, and says exactly this: created keys are INIT from protocol 11 on and LIVE before, updated keys LIVE, deleted keys DEAD, all with their bodies, and nothing about other keys |
| BucketFresh.FreshInits | src/bucket/Bucket.cpp:131-148 | the INIT slots of a fresh bucket are created keys, and only from protocol 11 on |
| Schedule.LevelFacts | src/bucket/BucketList.cpp:210-236 | sizes are twice halves, each half is four times the one above, and all fit 32 bits |
| Schedule.MaskRounds | src/bucket/BucketList.cpp:238-242 | masking rounds down to a multiple of a level's half or size |
| Schedule.SpillIff | src/bucket/BucketList.cpp:387-398 | a level spills exactly at the multiples of its half, and the last level never |
| Schedule.SpillDownward | src/bucket/BucketList.cpp:387-398 | when a level spills, all younger levels spill |
| Schedule.EmptyCurrIff | src/bucket/BucketList.cpp:72-96 | a merge is started without curr exactly when the level itself spills at its next change, across the wrap at 2^32 |
| Schedule.EmptyCurrWhenDue | src/bucket/BucketList.cpp:72-96 | the merge that is due leaves out curr exactly when its level spills now, so no entry is merged twice or lost |
| Schedule.EmptyCurrFromStart | src/bucket/BucketList.cpp:583-652 | the decision is the same when taken again from the ledger at which the running merge was started |
| LedgerSpans.TopsDescend | src/bucket/BucketList.cpp:244-315 | each curr is newer than its snap and each snap newer than the next level's curr |
| LedgerSpans.TopsStep | src/bucket/BucketList.cpp:461-567 | how the spans move when a ledger closes: curr to snap, snap to the next level's curr |
| LedgerSpans.SpansPartition | src/bucket/BucketList.cpp:317-354 | every closed ledger lies in exactly one bucket's span, and the spans are contiguous, newest first |
| LedgerSpans.PreviousRelevant | src/bucket/BucketList.cpp:264-268 | the latest earlier ledger at which a level changed is the latest spill from above |
| LedgerSpans.CurrSizeRecurs | src/bucket/BucketList.cpp:269-277 | a curr's size follows from its size at the change before |
| LedgerSpans.FullSnap | src/bucket/BucketList.cpp:291-315 | a snap is full from the level's size on, and nothing lies beneath it before |
| LedgerSpans.SizeOfCurr | src/bucket/BucketList.cpp:244-289 | the recursive 32-bit computation returns the number of ledgers that curr spans, terminates, and never wraps |
| LedgerSpans.SizeOfSnap | src/bucket/BucketList.cpp:291-315 | the same for snap |
| LedgerSpans.OldestLedgerInCurr | src/bucket/BucketList.cpp:317-335 | the result is the exact lower end of curr's span, or the largest word when curr is empty |
| LedgerSpans.OldestLedgerInSnap | src/bucket/BucketList.cpp:337-354 | the same for snap |
| ChainSteps.ShiftSteady | src/bucket/BucketList.cpp:104-177 | a snap and a commit keep every steady part that reaches past them |
| ChainSteps.ShiftKeepsIff | src/bucket/BucketList.cpp:104-177 | a snap and a commit that merges or drops a slot keep the chain legal and what a reader sees if and only if the slot is the merge or may be dropped |
| ChainSteps.CreationFollowsDead | src/bucket/Bucket.cpp:476-523 | if the newer slots begin with a creation, the merge below them is a tombstone or says nothing |
| ChainSteps.SteadyMayDrop | src/bucket/Bucket.cpp:199-270 | what is left out where newer slots are steady, or as a tombstone at the last level, may be left out |
| ChainSteps.ShiftPending | src/bucket/BucketList.cpp:461-567 | what a merge pending on another level will deliver stays right when a level moves, if a younger level that snaps was going to leave out its curr |
| ChainSteps.ShiftSteadyOlder | src/bucket/BucketList.cpp:461-567 | what a merge pending on an older level leaves out stays covered by steady slots when a younger level moves |
| ChainSteps.ShiftSteadyYounger | src/bucket/BucketList.cpp:461-567 | the same for a younger level |
| ChainSteps.FrontKeeps | src/bucket/BucketList.cpp:560-567 | taking in a closed ledger's slot meets no clash, keeps the chain legal and overlays the slot on what a reader sees |
| BucketInvariant.CommitDelivers | src/bucket/BucketList.cpp:104-112 | a level that is due commits a bucket with the slots its pending merge promised |
| BucketInvariant.CommitKeepsIff | src/bucket/Bucket.cpp:199-270 | committing a merge that holds for each key the merge of its inputs or nothing keeps every key's history legal and the ledger the same if and only if each entry it left out may be left out |
| BucketInvariant.StartVersion | src/bucket/Bucket.cpp:345-407 | the version of the merge a level starts is that of the snap above from protocol 12 on, and below 12 otherwise |
| BucketInvariant.StartMergeable | src/bucket/Bucket.cpp:526-570 | the merge a level starts meets no malformed and no illegal entry |
| BucketInvariant.StartDelivers | src/bucket/BucketList.cpp:148-169 | the merge a level starts succeeds, whatever its versions and shadows, and delivers for each key the merge of the two slots or nothing |
| BucketClosing.SpillKeepsIff | src/bucket/BucketList.cpp:508-552 | a level taking a spill succeeds and leaves all younger buckets alone; it keeps histories and ledger if and only if the commit leaves out only what may be left out, and then the invariant |
| BucketClosing.NoSpillKeeps | src/bucket/BucketList.cpp:508-552 | a level that is not due keeps its pending merge right for the next ledger |
| BucketClosing.SpillDownKeepsIff | src/bucket/BucketList.cpp:508-552 | visiting all levels, oldest first, keeps histories and ledger after every commit if and only if every commit leaves out only what may be left out of the list it meets; then it succeeds and keeps the invariant |
| BucketClosing.AbsorbKeeps | src/bucket/BucketList.cpp:560-567 | taking in the batch succeeds and applies it to the map the list stands for |
| BucketRuns.ResolveKeeps | src/bucket/BucketList.cpp:418-429 | replacing any finished merges by their output succeeds and keeps the invariant |
| BucketRuns.AddBatchKeepsIff | src/bucket/BucketList.cpp:461-581 | the same for closing a ledger on any list in order; then it succeeds and applies the batch, whichever merges have finished |
| BucketRuns.RestartRestores | src/bucket/BucketList.cpp:583-652 | restarting gives every level a merge with the inputs and output it had; the early return at an empty snap passes over levels without merges only |
| BucketRuns.RestartKeeps | src/bucket/BucketList.cpp:583-652 | saving a list, with any merges cleared, and restarting it succeeds and keeps every bucket and the invariant |
| BucketRuns.InvReads | src/bucket/BucketList.cpp:461-567 | a list in order, applied oldest bucket to newest, is the ledger |
| BucketRuns.RunKeeps | src/bucket/BucketList.cpp:461-652 | no event of a valid run whose commits leave out only what may be left out fails, and each keeps the invariant |
| BucketRuns.RunKeptIff | src/bucket/BucketList.cpp:461-652 | in every valid run, at any protocols, all histories are legal and the list is the ledger after every commit if and only if every commit leaves out only what may be left out of the list it meets |
| BucketShape.AddBatchShape | src/bucket/BucketList.cpp:461-567 | after a close, each snap and curr is the spilled curr, the committed merge, or what it was |
| BucketShape.AddBatchStarts | src/bucket/BucketList.cpp:461-552 | after a close, a level that took a spill has pending the merge of the spilled curr into what it committed (or into nothing, if it spills next), over exactly the buckets of all levels younger than the one that spilled, as they were before the close, unless the spilled curr is from protocol 12 on, and with tombstones kept except on the last level; all other pending merges are as before |
| BucketShape.RestartFailsIff | src/bucket/BucketList.cpp:583-652 | a restart is refused exactly if some level without a merge lies under a non-empty snap from before protocol 12, and no level before it ended the restart |
| BucketShape.MadeLiveIs | src/bucket/FutureBucket.cpp:405-430 | a stored merge is made live with its output, or with its inputs and then fails exactly if their version exceeds the bound |
| BucketShape.SavedForms | src/history/HistoryArchive.cpp:322-346 | what is stored of a level: its buckets, and its merge by name, or nothing where that is asked for and the snap above is from protocol 12 on |
| BucketSafety.CleanIsSafe | src/bucket/Bucket.cpp:355-407 | a merge that keeps lifecycle entries, or whose shadows are all from before protocol 12, drops no tombstone for a creation |
| BucketSafety.GuardCleans | src/bucket/Bucket.cpp:355-367 | in a list without a bucket from protocol 12 on above entries from before protocol 11, a merge of the old kind has no shadows from protocol 12 on |
| BucketSafety.GuardedIsSafe | src/bucket/Bucket.cpp:355-367 | so closing a ledger on such a list starts only safe merges |
| BucketSafety.ElidedIsSteady | src/bucket/Bucket.cpp:199-270 | a safe merge drops an entry for its shadows only where the newer part of its chain is steady |
| BucketSafety.SafeCloseKeeps | src/bucket/BucketList.cpp:461-581 | closing a ledger on a list whose pending merges left out nothing unsteady, if the merges it starts are safe, commits as it should, and leaves such a list |
| BucketSafety.SafeRunKeeps | src/bucket/BucketList.cpp:461-652 | if every merge a valid run starts is safe, every commit leaves out only what may be left out |
| BucketTheorems.LedgerRefinement | src/bucket/BucketList.cpp:461-652 | after every valid run, at any protocols, whose commits leave out only what may be left out, the list, applied oldest to newest, is exactly the map the batches build one by one, and nothing throws |
| BucketTheorems.LifecycleInvariant | src/bucket/Bucket.cpp:485-523 | after every such run each key's chain has every INIT preceded by DEAD or nothing, and every pending merge will succeed, so the malformed-bucket throws are unreachable |
| BucketTheorems.NewIsSafe | src/bucket/Bucket.cpp:355-367 | a list without entries from before protocol 11 starts only safe merges |
| BucketTheorems.UpgradedRunIsSafe | src/bucket/Bucket.cpp:355-367 | once a list holds no entries from before protocol 11, every run that follows is safe and keeps it so |
| BucketTheorems.NewRunIsSafe | src/bucket/Bucket.cpp:355-367 | every run at protocol 11 and later is safe, the upgrade from 11 to 12 included |
| BucketTheorems.OldRunIsSafe | src/bucket/Bucket.cpp:355-367 | so is every run below protocol 12, an upgrade from 10 to 11 included |
| BucketTheorems.RefinementFrom11 | src/bucket/BucketList.cpp:461-652 | in every run at protocol 11 and later, across the upgrade to 12 too, the list is the ledger, despite dropped entries, pending merges, merges without curr, restarts, and tombstones dropped at the last level |
| BucketTheorems.LifecycleFrom11 | src/bucket/Bucket.cpp:485-523 | in every list reached by such a run each key's history is legal and no pending merge can fail |
| BucketTheorems.ShadowElisionSound | src/bucket/Bucket.cpp:198-270 | up to protocol 11 the list is the ledger, despite entries dropped for their shadows, now and after all later merges |
| LedgerSpans.SizesWithin | src/bucket/BucketList.cpp:244-315 | no bucket spans more than half the size of its level |
| BucketUpgrade.RunDated | src/bucket/Bucket.cpp:345-407 | if ledgers after one number close at protocol 11 or later and those up to another before 12, each bucket whose newest ledger is after the first has version 11 or later, and each whose newest ledger is not after the second a version before 12 |
| BucketUpgrade.DatedVersion | src/bucket/Bucket.cpp:345-407 | once protocol 11 has lasted for half the size of level 8, every merge started later has version 11 or later, by an input or by a shadow from that time |
| BucketUpgrade.LongUpgradeIsSafe | src/bucket/Bucket.cpp:355-367 | a run through older protocols, 11 and later ones is safe, and the list is the ledger, if protocol 11 lasts for 131072 ledgers |
| BucketTiming.AddBatchSame | src/bucket/BucketList.cpp:461-581 | closing a ledger on lists with the same buckets and the same outcome of each pending merge fails alike or gives such lists again when the same merges have finished; whichever have finished, two closes that succeed give such lists |
| BucketTiming.TimingIrrelevant | src/bucket/BucketList.cpp:418-429 | two valid runs with the same protocols and batches, one of them with commits that leave out only what may be left out, are both so and end with the same bucket, version included, at all 22 positions and the same outcome of every pending merge, whenever merges finished and however often and from what the list was restarted |
| BucketRevival.MixedRunRevives | src/bucket/Bucket.cpp:355-367 | a valid run of 32 ledgers that upgrades from protocol 10 to 12, for any key and bodies, ends with the empty ledger but with a list that reads as holding the key, so one of its commits leaves out what may not be left out |
| BucketContents.RangeSplit | src/bucket/Bucket.cpp:465-581 | the merges of adjacent spans of ledgers merge to that of their union |
| BucketContents.RunContents | src/bucket/BucketList.cpp:244-315 | after every run from protocol 12 on whose batches touch what exists, each bucket above the last level holds, for each key, the merge of exactly the ledgers its span says; the last level holds it up to dropped tombstones |
| BucketContents.SizesCountLedgers | src/bucket/test/BucketListTests.cpp:571-594 | in a run that creates one account per ledger each bucket has exactly as many entries as the size computations say it holds ledgers |
| BucketAlgebra.JoinIs | src/bucket/Bucket.cpp:465-581 | a merge without shadows that keeps tombstones fails exactly where two slots clash, and has the table's slots and the larger version |
| BucketAlgebra.LeftJoinIff | src/bucket/Bucket.cpp:465-581 | merging three buckets oldest first succeeds if and only if every key's chain is legal |
| BucketAlgebra.MergeAssociativeIff | src/bucket/Bucket.cpp:465-581 | then the other grouping succeeds too, and the two agree if and only if no key was touched while it did not exist |
| BucketAlgebra.GroupingShows | src/bucket/Bucket.cpp:465-581 | three concrete buckets whose two groupings differ |
| BucketAlgebra.MergeForgetsDeletion | src/bucket/Bucket.cpp:465-581 | on a base that holds the key, merging its creation with its deletion gives the empty bucket, so applying the merge and applying the parts differ |
| BucketAlgebra.OldMergeUnderNewShadowsRevives | src/bucket/Bucket.cpp:355-367 | the merges behind that run alone: an old merge drops a tombstone for a new shadow, and the creation in the shadow vanishes with its own deletion |
| BucketListObject.BucketList.constructor | src/bucket/BucketList.cpp:656-662 | an empty list is in order and stands for the empty ledger |
| BucketListObject.BucketList.AddBatch | src/bucket/BucketList.cpp:461-581 | the method computes the close of a ledger, and on a list in order, if its commits leave out only what may be left out, it cannot fail and leaves the list standing for the ledger with the batch applied |
| BucketListObject.BucketList.Absorb | src/bucket/BucketList.cpp:560-567 | level 0 then holds for each key what the table makes of what it held and what the batch says; it fails exactly on a clash or a later version, and no other level and no snap changes |
| BucketListObject.BucketList.SpillLevels | src/bucket/BucketList.cpp:504-552 | the loop over levels with its shrinking list of shadows computes the visit of all levels |
| BucketListObject.BucketList.CollectShadows | src/bucket/BucketList.cpp:471-476 | the shadows are all buckets, newest first |
| BucketListObject.BucketList.ResolveAnyReadyFutures | src/bucket/BucketList.cpp:418-429 | exactly the finished merges are replaced by their outputs |
| BucketListObject.BucketList.RestartMerges | src/bucket/BucketList.cpp:583-652 | the method computes the restart, and on a list saved from one in order it restores every merge |
| BucketApplication.BucketApplicator.constructor | src/bucket/BucketApplicator.cpp:15-27 | an applicator starts at the first entry with the ledger untouched |
| BucketApplication.BucketApplicator.Advance | src/bucket/BucketApplicator.cpp:46-81 | a batch applies the next entries; when it fills up the iterator stays on its last entry, and the ledger is still that of a prefix of the bucket |
| BucketApplication.ApplyAgain | src/bucket/BucketApplicator.cpp:46-81 | applying the entry at a batch boundary twice is applying it once |
| BucketApplication.ApplyBucket | src/bucket/Bucket.cpp:78-90 | repeating batches of any size of at least one terminates and equals one pass over the bucket; too new a bucket is refused |
| ArgumentPermutation.Gcd | lib/util/getopt_long.c:107-120 | the result divides both numbers and is an integer combination of them |
| ArgumentPermutation.GcdIsGreatest | lib/util/getopt_long.c:104-120 | every common divisor divides such a number |
| ArgumentPermutation.OrbitReturns | lib/util/getopt_long.c:139-156 | following the exchange on coprime block lengths visits distinct places until it returns to its start |
| ArgumentPermutation.OrbitCovers | lib/util/getopt_long.c:139-156 | and it visits every place |
| ArgumentPermutation.PermuteCycle | lib/util/getopt_long.c:143-155 | one turn of the outer loop moves each element of its cycle to its target and touches nothing else |
| ArgumentPermutation.PermuteArgs | lib/util/getopt_long.c:122-157 | the two blocks have changed places, each in its own order, and everything around them is unchanged, for every first block and every non-empty second block |
| UInt128.ShlValue | lib/util/uint128_t.cpp:86-106 | a left shift by any amount doubles that often, modulo 2^128 |
| UInt128.ShrValue | lib/util/uint128_t.cpp:108-128 | a right shift by any amount halves that often |
| UInt128.LessIff | lib/util/uint128_t.cpp:160-172 | comparing words compares values |
| UInt128.AddValue | lib/util/uint128_t.cpp:182-190 | the carry read off the wrapped low word is right: the sum is exact modulo 2^128 |
| UInt128.SubValue | lib/util/uint128_t.cpp:192-199 | likewise the borrow and the difference |
| UInt128.ColumnsCarry | lib/util/uint128_t.cpp:213-229 | splitting the limb products at their middle and moving the high halves a column up loses nothing below 2^128 |
| UInt128.SumColumns | lib/util/uint128_t.cpp:213-229 | the row-by-row sums in 64-bit words are the exact column sums, at most 7, 5 and 3 times the largest limb, so none wraps |
| UInt128.Times | lib/util/uint128_t.cpp:201-233 | the product by 32-bit limbs is the product modulo 2^128 |
| UInt128Division.SetBit | lib/util/uint128_t.cpp:262-269 | or-ing in a quotient bit adds its weight when all lower bits are clear |
| UInt128Division.CountBits | lib/util/uint128_t.cpp:321-339 | the result is the position of the highest set bit, and 0 for zero |
| UInt128Division.DividingStep | lib/util/uint128_t.cpp:262-269 | a turn of the division loop keeps dividend = quotient times divisor + remainder, and the remainder below twice the shifted divisor |
| UInt128Division.LongDivision | lib/util/uint128_t.cpp:255-270 | the shift-and-subtract loop terminates with the quotient and the remainder |
| UInt128Division.DivMod | lib/util/uint128_t.cpp:240-271 | division by zero is an error; else the results are the integer quotient and remainder |
| UInt128Division.Mod | lib/util/uint128_t.cpp:282-284 | subtracting the wrapped product of divisor and quotient gives the remainder |
| UInt128Division.DigitLetters | lib/util/uint128_t.cpp:341-360 | the digits from ten on are the letters from 'a' to 'f' |
| UInt128Division.Str | lib/util/uint128_t.cpp:341-360 | in bases 2 to 16 the text consists of digits of the base, has the number as its positional value, is at least as long as asked, and has no leading zero beyond that; other bases are an error |
| SipHash.RotateMovesBits | lib/util/siphash.h:19-23 | a rotation moves every bit up, and those that leave at the top come in at the bottom |
| SipHash.LoadPacks | lib/util/siphash.h:25-34 | loading eight bytes gives their little-endian number |
| SipHash.AboveIsZero | lib/util/siphash.cpp:37-47 | the places of the word not yet filled are zero |
| SipHash.FeedInside | lib/util/siphash.h:87-96 | one more byte inside a word, against the state of the longer message |
| SipHash.FeedCompletes | lib/util/siphash.h:87-96 | one more byte that completes a word |
| SipHash.FeedWord | lib/util/siphash.h:77-86 | eight more bytes on a word boundary by the fast path reach the same state |
| SipHash.LastWordIs | lib/util/siphash.cpp:27-48 | the last word is the tail, zeros, and the length modulo 256 |
| SipHash.SipHash24.constructor | lib/util/siphash.cpp:5-18 | the state is that of the empty message under the key |
| SipHash.SipHash24.Round | lib/util/siphash.h:36-53 | the updates of single lanes amount to one round of the paper |
| SipHash.SipHash24.DigestBlock | lib/util/siphash.h:55-64 | a word is mixed in by two rounds, and the word buffer is cleared |
| SipHash.SipHash24.Update | lib/util/siphash.h:70-97 | the state after an update is that of the whole input so far, by the fast path and the slow path alike |
| SipHash.SipHash24.Digest | lib/util/siphash.cpp:24-60 | the digest is SipHash-2-4 of the whole input, and the zero-byte assertions hold |
| SipHash.HashPieces | lib/util/siphash.h:66-98 | for every cut of a message into updates the hash is that of the message |
| SipHashVector.PaperVector | lib/util/siphash.cpp:5-60 | the hash of the bytes 0 to 14 under the key of bytes 0 to 15 is 0xa129ca6149be45e5, as appendix A of the SipHash paper gives it |
| BitSets.ShlMembers | lib/util/cbitset.h:97-99 | the words of a left shift stand for the set with s added to each member |
| BitSets.ShrMembers | lib/util/cbitset.h:101-103 | the words of a right shift stand for the members from s on, with s subtracted |
| BitSets.ShiftBack | lib/util/cbitset.h:97-103 | a right shift after a left shift by the same amount restores the set |
| BitSets.MoveUp | lib/util/cbitset.c:95-99 | whole words move up in place without overwriting what is still to be read |
| BitSets.ShiftUp | lib/util/cbitset.c:103-112 | words with carried bits move up in place |
| BitSets.ShiftDown | lib/util/cbitset.c:137-145 | words with carried bits move down in place |
| BitSets.BitSet.constructor | lib/util/cbitset.c:18-32 | a new set is empty |
| BitSets.BitSet.Resize | lib/util/cbitset.c:156-180 | the common words are kept, and new ones are zero if asked for; otherwise they are arbitrary |
| BitSets.BitSet.Get | lib/util/cbitset.h:135-145 | reads membership, false beyond the array |
| BitSets.BitSet.Set | lib/util/cbitset.h:70-119 | adds exactly one member, growing with zeros where needed |
| BitSets.BitSet.ShiftLeft | lib/util/cbitset.c:86-118 | the in-place loops compute the words of the left shift although the new words start as garbage |
| BitSets.BitSet.ShiftRight | lib/util/cbitset.c:120-147 | the in-place loops compute the words of the right shift |
| BitSets.BitSet.NextSetBit | lib/util/cbitset.h:207-234 | finds the least member from the cursor on, or reports that there is none |
| BitSets.BitSet.Enumerate | lib/util/cbitset.h:201-206 | the documented loop lists every member exactly once in ascending order |
| BaseN.AlphabetAt | lib/util/basen.h:83-163 | decoding a character of an alphabet gives its index, for all three |
| BaseN.DecodeInRange | lib/util/basen.h:83-163 | a character that decodes is the one at its value |
| BaseN.PartialBits | lib/util/basen.h:61-69 | the extracted bits are the stretch of the byte |
| BaseN.OverlappingBits | lib/util/basen.h:71-79 | the extracted bits are the stretch across two bytes |
| BaseN.Encode | lib/util/basen.h:210-253 | the loops with backlog and padding write the groups of the bit string, the last filled with zeros, and then '=' to a whole quantum |
| BaseNDecoding.DecodeFits | lib/util/basen.h:183-193 | a value that fits extends the decoded bits, flushing a full byte |
| BaseNDecoding.DecodeSpans | lib/util/basen.h:194-205 | a value across a byte boundary extends the decoded bits |
| BaseNDecoding.Decode | lib/util/basen.h:165-208 | the loop returns the whole bytes of the bits of all characters of the alphabet |
| BaseNDecoding.InsertedNoise | lib/util/basen.h:172-182 | characters outside the alphabet may be inserted anywhere without effect |
| BaseNDecoding.RoundTrip | lib/util/basen.h:165-253 | decoding an encoding gives the bytes back, for every byte string and each alphabet |
| BaseNCanonical.NoiseIsLost | lib/util/basen.h:172-182 | a character outside the alphabet decodes to nothing, and nothing encodes to nothing |
| BaseNCanonical.EncodeUndoesDecodeIff | lib/util/basen.h:165-253 | encoding what a text decodes to gives the text back if and only if it is canonical: characters of the alphabet, unused bits zero and fewer than a character holds, and '=' up to a whole quantum |
| BaseNCanonical.AlphabetForms | lib/util/basen.h:83-163 | the three alphabets are those of sections 8, 6 and 4 of RFC 4648 |
| BaseNCanonical.VectorOfF | lib/util/basen.h:210-253 | the letter f is encoded as 66, MY====== and Zg==, the vectors of section 10 of RFC 4648 |
| BaseNDecoding.EncodedLength | lib/util/basen.h:210-253 | the encoded length with padding is that of sections 8, 6 and 4 of RFC 4648 |
| JsonValues.SetMemberLast | lib/json/jsoncpp.cpp:2379-2399 | assigning a member with the largest key appends it |
| JsonWriting.UintToString | lib/json/jsoncpp.cpp:145-151 | the digits written backwards are the decimal numeral |
| JsonWriting.ValueToQuotedString | lib/json/jsoncpp.cpp:3075-3135 | the direct copy and the escaping loop give the same quoted form of the C string |
| JsonWriting.FastWriter.WriteValue | lib/json/jsoncpp.cpp:3162-3208 | the document grows by exactly the written form of the value |
| JsonWriting.FastWriter.Write | lib/json/jsoncpp.cpp:3154-3160 | the text is the written form and a line feed |
| JsonForms.WrittenForms | lib/json/jsoncpp.cpp:3162-3208 | constants are written as their words, integers in decimal, arrays and objects between brackets with one comma between any two parts, and members as a quoted key, a colon and the value |
| JsonForms.DecimalForm | lib/json/jsoncpp.cpp:145-151 | integers are written in digits without a leading zero |
| JsonForms.EscapedForms | lib/json/jsoncpp.cpp:3089-3130 | the seven short escapes, a u with four upper-case hexadecimal digits after the backslash for other control characters, and all other characters as they are |
| JsonForms.PlainIsQuoted | lib/json/jsoncpp.cpp:3079-3081 | text without quotes, backslashes and control characters is written as it is |
| JsonForms.KeyLessIff | lib/json/jsoncpp.cpp:2379-2399 | members are ordered by the first character where keys differ, a proper prefix being smaller |
| JsonRoundTrip.LengthEscaped | lib/json/jsoncpp.cpp:575-585 | the scan of a written string stops at its closing quote and no earlier |
| JsonRoundTrip.DecodeEscaped | lib/json/jsoncpp.cpp:793-901 | resolving escapes undoes escaping, control characters included |
| JsonRoundTrip.CodePointReads | lib/json/jsoncpp.cpp:846-901 | every code point is read from its four-digit escape, one beyond 16 bits from its surrogate pair |
| JsonRoundTrip.Utf8Reads | lib/json/jsoncpp.cpp:99-126 | the bytes for a code point are its UTF-8 form of section 3 of RFC 3629: decoding them gives it back, and their number is the shortest |
| JsonRoundTrip.AccumulatedIff | lib/json/jsoncpp.cpp:700-727 | the threshold test accepts digits exactly when their number is within the maximum, leading zeros included |
| JsonRoundTrip.IntegerReadBack | lib/json/jsoncpp.cpp:689-735 | a written integer is read as one token and decoded to itself |
| JsonRoundTrip.ReadBack | lib/json/jsoncpp.cpp:332-403 | a written value followed by any text that cannot continue a number is read back, and exactly its text is consumed |
| JsonRoundTrip.ElementsReadBack | lib/json/jsoncpp.cpp:642-677 | the elements of an array from any position |
| JsonRoundTrip.MembersReadBack | lib/json/jsoncpp.cpp:587-640 | the members of an object from any position |
| JsonRoundTrip.RoundTrip | lib/json/jsoncpp.cpp:3154-3208 | reading a written document gives the same tree, its integers tagged by their size |
| JsonRoundTrip.WrittenAlike | lib/json/jsoncpp.cpp:3162-3208 | values with the same text are the same tree up to the tags of their integers |
| JsonReadable.SetMemberLookup | lib/json/jsoncpp.cpp:2379-2399 | assigning a member changes what that key holds and nothing else |
| JsonReadable.SetMemberAscending | lib/json/jsoncpp.cpp:2379-2399 | members stay in strict key order |
| JsonReadable.ReadIsReadable | lib/json/jsoncpp.cpp:332-403 | whatever document is read, a value that results has C strings, distinct ascending keys, and integers within 64 bits tagged by size |
| JsonReadable.Reread | lib/json/jsoncpp.cpp:332-403 | a value read from any document, if it has no doubles and not the least signed integer, is written to text that reads as the very same value |
| JsonObjects.ObjectReads | lib/json/jsoncpp.cpp:587-640 | any members, in any order and with repeats, joined by commas between braces, are read as an object in which each key holds the value of its last member and no other key occurs |
| JsonObjects.WrittenReads | lib/json/jsoncpp.cpp:3162-3208 | the written form of every storable value may stand in such a member |
| JsonForms.EscapesRead | lib/json/jsoncpp.cpp:801-829 | what each of the eight escapes of two characters stands for |
| JsonForms.OtherEscapesFail | lib/json/jsoncpp.cpp:830-839 | any other character after a backslash, apart from u, is an error |
| JsonForms.LoneSurrogateFails | lib/json/jsoncpp.cpp:846-873 | a high surrogate without another escape after it is an error |
| JsonForms.HexDigitsRead | lib/json/jsoncpp.cpp:879-901 | hexadecimal digits of both cases have their values, and no other character has one |
| JsonForms.BlanksPass | lib/json/jsoncpp.cpp:493-501 | blanks, tabs and line ends of both kinds before a value are passed over |
| JsonForms.IntegerKinds | lib/json/jsoncpp.cpp:700-735 | integers up to 2147483647 and negative ones down to -9223372036854775808 are signed, larger ones up to 18446744073709551615 unsigned, and all beyond are doubles |
| JsonForms.FloatReads | lib/json/jsoncpp.cpp:566-573 | a floating constant with a point or an exponent is read whole, as a double |
| JsonLeniency.CommentsPass | lib/json/jsoncpp.cpp:405-413 | a value is read through a comment of either kind before it, whatever the comment says short of its own end |
| JsonLeniency.MemberThen | lib/json/jsoncpp.cpp:625-637 | after a member the list goes on exactly at a comma, or at a comment whose first following token that is no comment is not '}'; it ends exactly at a '}', past any comments; otherwise the read fails |
| JsonLeniency.CommaNotNeeded | lib/json/jsoncpp.cpp:625-637 | a witness: a comment and a character such as ';' pass for the comma |
| JsonLeniency.TrailingComma | lib/json/jsoncpp.cpp:592-612 | a comma before the closing brace is an error, unless the last key was empty |
| JsonLeniency.ElementThen | lib/json/jsoncpp.cpp:655-676 | an array goes on after a comma, ends at a ']', past any comments, and otherwise the read fails |
| JsonLeniency.NoCommentInEmptyArray | lib/json/jsoncpp.cpp:642-652 | an empty array is read, and one with only a comment in it is an error |
| JsonLeniency.ScansIff | lib/json/jsoncpp.cpp:747-781 | a text is accepted as a double if and only if it begins, perhaps after a sign, with digits before or after a point or without one, and an exponent mark that comes next is followed by digits, perhaps after a sign |
| JsonLeniency.NumberFailsIff | lib/json/jsoncpp.cpp:689-735 | a number token is refused exactly when it looks like a double and is not scanned as one; integers of any length are read |
| JsonReader.DecodeNumberText | lib/json/jsoncpp.cpp:689-735 | the loops decode a number token: an integer within range, else a double if it can be scanned as one, else an error |
| JsonReader.Accumulate | lib/json/jsoncpp.cpp:707-727 | the digit loop with its overflow threshold |
| JsonReader.DecodeStringText | lib/json/jsoncpp.cpp:793-844 | the loop resolves all escapes, surrogate pairs included, or fails |
| JsonReader.Reader.ReadString | lib/json/jsoncpp.cpp:575-585 | the cursor moves past the closing quote, or the string is reported as open |
| JsonReader.Reader.ReadCStyleComment | lib/json/jsoncpp.cpp:548-555 | the cursor moves past the first closing mark, or the comment is reported as open |
| JsonReader.Reader.NextToken | lib/json/jsoncpp.cpp:422-501 | the cursor moves past exactly one token, comments and malformed tokens included |
| JsonReader.Reader.SkipCommentTokens | lib/json/jsoncpp.cpp:405-413 | the cursor moves past comments and one token that is none |
| JsonReader.Reader.ReadArray | lib/json/jsoncpp.cpp:642-677 | the loop reads an array or fails |
| JsonReader.Reader.ReadObject | lib/json/jsoncpp.cpp:587-640 | the loop reads an object or fails; after a comma a '}' is accepted only if the last name was empty, and after a comment any token but '}' passes for the comma |
| JsonReader.Reader.ReadMember | lib/json/jsoncpp.cpp:613-637 | a member is read from its colon on and assigned: its key then holds its value and all other keys what they held; the loop goes on if and only if the value is read and what follows lets the list go on |
| JsonReader.Reader.ReadValue | lib/json/jsoncpp.cpp:332-403 | the recursive reader agrees with the parsing function on every document, and so on whether it fails |
| JsonReader.WriteThenRead | lib/json/jsoncpp.cpp:3154-3208 | the writer object and the reader object together give the value back |

## Left out

- Files, hashing, temporary directories, threads, metrics: buckets are values, and a merge that runs in
  the background is its recorded inputs; that it has finished is an input of each event.
- Shutting down in the middle of a close or a merge, which ends in an exception of its own.
- BucketUpgrade.LongUpgradeIsSafe: gives a sufficient length of protocol 11, not the least one.
- The standard library's sort is modelled by an insertion sort.
- Entry bodies and the byte strings inside keys are opaque values with the order of their bytes.
- Upper limits on counters of the applicator and its statistics.
- Option parsing other than the exchange of blocks; the exchange is modelled for a non-empty second
  block, since the source divides by zero on an empty one.
- Bitwise and, xor and complement of 128-bit numbers, increments, and the mixed-type operators.
- Set operations on bit sets other than shifts, set, get and iteration.
- BitSets.BitSet.ShiftLeft: excludes an empty array with a shift that is not a whole number of words,
  where the source reads the word before the array.
- BitSets.BitSet.ShiftRight: excludes shifts past the end of the array, where the source reads and writes
  outside it.
- JsonReader.DecodeNumberText: a number that is not an integer in range is kept as the text it was read
  from, because its conversion to a binary fraction is the C library's. Which texts `sscanf` accepts is modelled by section 7.21.6.2 of ISO/IEC 9899:2011.
- Collecting the text of JSON comments. Error messages and recovery after an error are not modelled; a
  failed read reports only that it failed.
- The least signed 64-bit integer as a JSON value, whose negation overflows in the source.
- JsonReader.Reader.ReadArray: values are returned instead of being built in place on the node stack.
- JsonReader.Reader.ReadObject: values are returned instead of being built in place on the node stack.
