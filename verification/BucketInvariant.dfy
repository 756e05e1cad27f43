/** What every reachable bucket list satisfies, and why closing a ledger keeps it. */
module BucketInvariant {
  import opened Outcomes
  import opened LedgerKeys
  import opened Buckets
  import opened Lifecycle
  import opened BucketMerge
  import opened ChainSteps
  import opened Bits
  import opened Schedule
  import opened BucketLevels

  /** The slots of one key in all positions, newest first. */
  function Chain(levels: Levels, k: LedgerKey): (c: seq<Slot>)
    ensures |c| == POSITIONS
  {
    seq(22, p requires 0 <= p < 22 => At(BucketAt(levels, p), k))
  }

  lemma PositionsOf(levels: Levels, i: nat)
    requires i < NUM_LEVELS
    ensures BucketAt(levels, 2 * i) == levels[i].curr && BucketAt(levels, 2 * i + 1) == levels[i].snap
  {
  }

  lemma ChainAt(levels: Levels, k: LedgerKey, i: nat)
    requires i < NUM_LEVELS
    ensures Chain(levels, k)[2 * i] == At(levels[i].curr, k) && Chain(levels, k)[2 * i + 1] == At(levels[i].snap, k)
  {
    hide BucketAt, At;
    PositionsOf(levels, i);
  }

  /** What the buckets say about one key. */
  function SlotsIn(bs: seq<Bucket>, k: LedgerKey): (c: seq<Slot>)
    ensures |c| == |bs|
  {
    seq(|bs|, j requires 0 <= j < |bs| => At(bs[j], k))
  }

  ghost predicate BucketsOk(levels: Levels, protocol: nat) {
    forall p :: 0 <= p < 22 ==> WellFormed(BucketAt(levels, p)) && Version(BucketAt(levels, p)) <= protocol
  }

  /** From protocol 12 on, newer buckets have no smaller versions than older ones; `hole` is a
      position that has just been emptied. */
  ghost predicate VersionsAged(levels: Levels, hole: nat) {
    forall p, q :: 0 <= p < q < 22 && p != hole && Version(BucketAt(levels, q)) >= FIRST_PROTOCOL_SHADOWS_REMOVED ==>
      Version(BucketAt(levels, p)) >= Version(BucketAt(levels, q))
  }

  /** Every key's history is legal, and its newest slot is what the ledger holds. */
  ghost predicate KeysOk(levels: Levels, m: Ledger) {
    forall k :: Legal(Chain(levels, k)) && View(Chain(levels, k)) == Lookup(m, k)
  }

  /** `w` is what the merge pending on level `i` delivers. */
  ghost predicate Delivers(levels: Levels, i: nat, emptyCurr: bool, protocol: nat, w: Bucket)
    requires 1 <= i < NUM_LEVELS
  {
    var base := if emptyCurr then EmptyBucket else levels[i].curr;
    var above := levels[i - 1].snap;
    && WellFormed(w) && Version(w) <= protocol
    && Version(base) <= Version(w) && Version(above) <= Version(w)
    && (Version(above) < FIRST_PROTOCOL_SHADOWS_REMOVED ==> Version(w) < FIRST_PROTOCOL_SHADOWS_REMOVED)
    && (Version(above) >= FIRST_PROTOCOL_SHADOWS_REMOVED ==>
          MergeBuckets(Version(above), base, above, [], KeepDeadEntries(i)) == Ok(w))
    && SlotsPending(levels, i, emptyCurr, w)
  }

  ghost predicate SlotsPending(levels: Levels, i: nat, emptyCurr: bool, w: Bucket)
    requires 1 <= i < NUM_LEVELS
  {
    forall k :: PendingSlot(Chain(levels, k), i, emptyCurr, At(w, k))
  }

  /** A merge that still runs has as inputs the level's curr (or nothing) and the snap above. */
  ghost predicate InputsOk(levels: Levels, i: nat, emptyCurr: bool, protocol: nat)
    requires 1 <= i < NUM_LEVELS
  {
    var f := levels[i].next;
    f.LiveInputs? ==>
      && f.curr == (if emptyCurr then EmptyBucket else levels[i].curr) && f.snap == levels[i - 1].snap
      && f.keepDead == KeepDeadEntries(i) && MergeVersion(f.curr, f.snap, f.shadows) <= protocol
  }

  /** The merge pending on level `i`, where `ledger` is the last one the level has seen. */
  ghost predicate Pending(levels: Levels, i: nat, ledger: U32, protocol: nat)
    requires 1 <= i < NUM_LEVELS
  {
    if ledger < LevelHalf(i - 1) then
      levels[i].next.Clear? && levels[i - 1].snap == EmptyBucket && levels[i].curr == EmptyBucket
    else
      levels[i].next.IsLive() && levels[i].next.Resolve().Ok?
      && Delivers(levels, i, ShouldMergeWithEmptyCurr(ledger, i), protocol, levels[i].next.Resolve().value)
      && InputsOk(levels, i, ShouldMergeWithEmptyCurr(ledger, i), protocol)
  }

  ghost predicate AllPending(levels: Levels, lo: nat, hi: nat, ledger: U32, protocol: nat)
    requires 1 <= lo && hi <= NUM_LEVELS
  {
    forall j :: lo <= j < hi ==> Pending(levels, j, ledger, protocol)
  }

  ghost predicate Ends(levels: Levels) {
    levels[0].next.Clear? && levels[LAST_LEVEL].snap == EmptyBucket
  }

  /** The state after closing `ledger`, where `m` is the ledger map. */
  ghost predicate Inv(levels: Levels, ledger: U32, protocol: nat, m: Ledger) {
    && Ends(levels) && BucketsOk(levels, protocol) && VersionsAged(levels, 22) && KeysOk(levels, m)
    && AllPending(levels, 1, NUM_LEVELS, ledger, protocol)
  }

  function Hole(i: nat, ledger: U32): nat
    requires i < NUM_LEVELS
  {
    if LevelShouldSpill(ledger, i) then 2 * i else 22
  }

  /** The state while closing `ledger`, when only the levels up to `i` remain to be visited. */
  ghost predicate Mid(levels: Levels, i: nat, ledger: U32, protocol: nat, m: Ledger)
    requires i < NUM_LEVELS && 0 < ledger
  {
    && Ends(levels) && BucketsOk(levels, protocol) && VersionsAged(levels, Hole(i, ledger)) && KeysOk(levels, m)
    && (LevelShouldSpill(ledger, i) ==> levels[i].curr == EmptyBucket)
    && AllPending(levels, i + 1, NUM_LEVELS, ledger, protocol)
    && AllPending(levels, 1, i + 1, ledger - 1, protocol)
  }

  // ----- level i - 1 snaps and level i commits -----

  function Shift(levels: Levels, i: nat, w: Bucket, next: FutureBucket): Levels
    requires 1 <= i < NUM_LEVELS
  {
    levels[i - 1 := levels[i - 1].Snapped()][i := Level(w, levels[i].snap, next)]
  }

  lemma ShiftAt(levels: Levels, i: nat, w: Bucket, next: FutureBucket, p: nat)
    requires 1 <= i < NUM_LEVELS && p < 22
    ensures BucketAt(Shift(levels, i, w, next), p) ==
      if p == 2 * i - 2 then EmptyBucket
      else if p == 2 * i - 1 then BucketAt(levels, 2 * i - 2)
      else if p == 2 * i then w
      else BucketAt(levels, p)
  {
  }

  lemma ShiftChain(levels: Levels, i: nat, w: Bucket, next: FutureBucket, k: LedgerKey)
    requires 1 <= i < NUM_LEVELS
    ensures Chain(Shift(levels, i, w, next), k) == Shifted(Chain(levels, k), i, At(w, k))
  {
    var c, d := Chain(Shift(levels, i, w, next), k), Shifted(Chain(levels, k), i, At(w, k));
    forall p | 0 <= p < 22 ensures c[p] == d[p] {
      ShiftAt(levels, i, w, next, p);
    }
  }

  lemma NothingDelivers(levels: Levels, i: nat, emptyCurr: bool, protocol: nat)
    requires 1 <= i < NUM_LEVELS && levels[i - 1].snap == EmptyBucket && levels[i].curr == EmptyBucket
    ensures Delivers(levels, i, emptyCurr, protocol, EmptyBucket)
  {
    forall k ensures PendingSlot(Chain(levels, k), i, emptyCurr, Absent) {
      assert Chain(levels, k)[2 * i - 1] == At(levels[i - 1].snap, k);
      assert Chain(levels, k)[2 * i] == At(levels[i].curr, k);
    }
  }

  /** The pending merge of a level that is due, and the bucket it commits. */
  lemma CommitDelivers(levels: Levels, i: nat, ledger: U32, protocol: nat) returns (w: Bucket)
    requires 1 <= i < NUM_LEVELS && 0 < ledger && LevelShouldSpill(ledger, i - 1)
    requires Pending(levels, i, ledger - 1, protocol)
    ensures levels[i].Committed() == Ok(Level(w, levels[i].snap, Clear))
    ensures Delivers(levels, i, LevelShouldSpill(ledger, i), protocol, w)
  {
    hide LevelShouldSpill, ShouldMergeWithEmptyCurr, LevelHalf, Multiple, Delivers;
    SpillIff(ledger, i - 1);
    EmptyCurrWhenDue(ledger, i);
    if ledger - 1 < LevelHalf(i - 1) {
      w := EmptyBucket;
      NothingDelivers(levels, i, LevelShouldSpill(ledger, i), protocol);
    } else {
      w := levels[i].next.Resolve().value;
    }
  }

  lemma ShiftBuckets(levels: Levels, i: nat, emptyCurr: bool, protocol: nat, w: Bucket, next: FutureBucket, hole: nat)
    requires 1 <= i < NUM_LEVELS && BucketsOk(levels, protocol) && VersionsAged(levels, hole)
    requires (hole == 2 * i && levels[i].curr == EmptyBucket) || hole == 22
    requires Delivers(levels, i, emptyCurr, protocol, w)
    ensures var levels' := Shift(levels, i, w, next);
      BucketsOk(levels', protocol) && VersionsAged(levels', 2 * i - 2)
  {
    hide BucketsOk, VersionsAged, Delivers, Shift;
    ShiftOk(levels, i, emptyCurr, protocol, w, next);
    ShiftAged(levels, i, emptyCurr, protocol, w, next, hole);
  }

  lemma ShiftOk(levels: Levels, i: nat, emptyCurr: bool, protocol: nat, w: Bucket, next: FutureBucket)
    requires 1 <= i < NUM_LEVELS && BucketsOk(levels, protocol) && Delivers(levels, i, emptyCurr, protocol, w)
    ensures BucketsOk(Shift(levels, i, w, next), protocol)
  {
    DeliversOk(levels, i, emptyCurr, protocol, w);
    EmptyIsWellFormed();
    hide WellFormed, BucketAt, Shift, Delivers;
    forall p | 0 <= p < 22 { ShiftAt(levels, i, w, next, p); }
  }

  lemma DeliversOk(levels: Levels, i: nat, emptyCurr: bool, protocol: nat, w: Bucket)
    requires 1 <= i < NUM_LEVELS && Delivers(levels, i, emptyCurr, protocol, w)
    ensures WellFormed(w) && Version(w) <= protocol && SlotsPending(levels, i, emptyCurr, w)
    ensures Version(levels[i - 1].snap) <= Version(w)
  {
    hide WellFormed, SlotsPending, MergeBuckets;
  }

  lemma ShiftAged(levels: Levels, i: nat, emptyCurr: bool, protocol: nat, w: Bucket, next: FutureBucket, hole: nat)
    requires 1 <= i < NUM_LEVELS && VersionsAged(levels, hole) && Delivers(levels, i, emptyCurr, protocol, w)
    requires (hole == 2 * i && levels[i].curr == EmptyBucket) || hole == 22
    ensures VersionsAged(Shift(levels, i, w, next), 2 * i - 2)
  {
    hide BucketAt, Shift, Delivers;
    var levels' := Shift(levels, i, w, next);
    PositionsOf(levels, i - 1);
    PositionsOf(levels, i);
    DeliversOk(levels, i, emptyCurr, protocol, w);
    forall p, q | 0 <= p < q < 22 && p != 2 * i - 2 && Version(BucketAt(levels', q)) >= FIRST_PROTOCOL_SHADOWS_REMOVED
      ensures Version(BucketAt(levels', p)) >= Version(BucketAt(levels', q))
    {
      var snap := BucketAt(levels, 2 * i - 1);
      ShiftAt(levels, i, w, next, p);
      ShiftAt(levels, i, w, next, q);
      if p == 2 * i { assert Version(BucketAt(levels, q)) <= Version(snap); }
      if q == 2 * i { NewVersion(levels, i, emptyCurr, protocol, w); }
    }
  }

  lemma ShiftYoungest(levels: Levels, i: nat, w: Bucket, next: FutureBucket, n: nat)
    requires 1 <= i < NUM_LEVELS && n <= 2 * i - 2
    ensures Youngest(Shift(levels, i, w, next), n) == Youngest(levels, n)
  {
    hide BucketAt, Shift;
    forall p | 0 <= p < n { ShiftAt(levels, i, w, next, p); }
  }

  /** A merge over a snap from protocol 12 on has the version of that snap. */
  lemma NewVersion(levels: Levels, i: nat, emptyCurr: bool, protocol: nat, w: Bucket)
    requires 1 <= i < NUM_LEVELS && Delivers(levels, i, emptyCurr, protocol, w)
    requires Version(w) >= FIRST_PROTOCOL_SHADOWS_REMOVED
    ensures Version(w) == Version(levels[i - 1].snap)
  {
  }

  /** Whatever `w` leaves out may be left out. */
  ghost predicate DropsKeep(levels: Levels, i: nat, emptyCurr: bool, w: Bucket)
    requires 1 <= i < NUM_LEVELS
  {
    forall k :: At(w, k) == Merged(Chain(levels, k), i, emptyCurr) || DropKeeps(Chain(levels, k), i, emptyCurr)
  }

  /** Committing a merge that has dropped entries keeps every key's history legal and the ledger the
      same if and only if each dropped entry may be dropped. */
  lemma CommitKeepsIff(levels: Levels, i: nat, emptyCurr: bool, w: Bucket, next: FutureBucket, m: Ledger)
    requires 1 <= i < NUM_LEVELS && KeysOk(levels, m) && SlotsPending(levels, i, emptyCurr, w)
    requires emptyCurr ==> levels[i].curr == EmptyBucket
    ensures KeysOk(Shift(levels, i, w, next), m) <==> DropsKeep(levels, i, emptyCurr, w)
  {
    hide Legal, View, Shift, BucketAt, Shifted, Merged, DropKeeps, PendingSlot;
    var levels' := Shift(levels, i, w, next);
    forall k ensures
      Legal(Chain(levels', k)) && View(Chain(levels', k)) == Lookup(m, k) <==>
      At(w, k) == Merged(Chain(levels, k), i, emptyCurr) || DropKeeps(Chain(levels, k), i, emptyCurr)
    {
      ShiftChain(levels, i, w, next, k);
      ChainAt(levels, k, i);
      assert PendingSlot(Chain(levels, k), i, emptyCurr, At(w, k));
      ShiftKeepsIff(Chain(levels, k), i, emptyCurr, At(w, k));
    }
  }

  lemma ShiftSlots(levels: Levels, i: nat, w: Bucket, next: FutureBucket, j: nat, e: bool, u: Bucket)
    requires 1 <= i < NUM_LEVELS && 1 <= j < NUM_LEVELS && j != i && (j == i - 1 ==> e)
    requires SlotsPending(levels, j, e, u)
    ensures SlotsPending(Shift(levels, i, w, next), j, e, u)
  {
    hide PendingSlot, Shift;
    forall k ensures PendingSlot(Chain(Shift(levels, i, w, next), k), j, e, At(u, k)) {
      assert PendingSlot(Chain(levels, k), j, e, At(u, k));
      ShiftChain(levels, i, w, next, k);
      ShiftPending(Chain(levels, k), i, At(w, k), j, e, At(u, k));
    }
  }

  /** A shift at level `i` leaves alone what other levels are waiting for: a younger one that has just
      snapped was going to leave its curr out. */
  lemma ShiftPendingLevel(levels: Levels, i: nat, protocol: nat, w: Bucket, next: FutureBucket, j: nat, ledger: U32)
    requires 1 <= i < NUM_LEVELS && 1 <= j < NUM_LEVELS && j != i
    requires j < i ==> LevelHalf(j - 1) <= ledger
    requires j == i - 1 ==> ShouldMergeWithEmptyCurr(ledger, j)
    requires Pending(levels, j, ledger, protocol)
    ensures Pending(Shift(levels, i, w, next), j, ledger, protocol)
  {
    hide ShouldMergeWithEmptyCurr, LevelHalf, SlotsPending, MergeBuckets, MergeVersion;
    if ledger >= LevelHalf(j - 1) {
      ShiftSlots(levels, i, w, next, j, ShouldMergeWithEmptyCurr(ledger, j), levels[j].next.Resolve().value);
    }
  }

  // ----- level i starts its next merge -----

  function Base(levels: Levels, i: nat, e: bool): Bucket
    requires i < NUM_LEVELS
  {
    if e then EmptyBucket else levels[i].curr
  }

  function UsedShadows(above: Bucket, shadows: seq<Bucket>): seq<Bucket> {
    if Version(above) >= FIRST_PROTOCOL_SHADOWS_REMOVED then [] else shadows
  }

  /** The version of the merge that level i starts is that of the snap above from protocol 12
      on, and below 12 otherwise. */
  lemma StartVersion(levels: Levels, i: nat, e: bool, protocol: nat)
    requires 1 <= i < NUM_LEVELS && BucketsOk(levels, protocol) && VersionsAged(levels, 2 * i - 2)
    ensures var base, above := Base(levels, i, e), levels[i - 1].snap;
      var used := UsedShadows(above, Youngest(levels, 2 * i - 2));
      var version := MergeVersion(base, above, used);
      && Version(base) <= version && Version(above) <= version <= protocol
      && (Version(above) < FIRST_PROTOCOL_SHADOWS_REMOVED ==> version < FIRST_PROTOCOL_SHADOWS_REMOVED)
      && (Version(above) >= FIRST_PROTOCOL_SHADOWS_REMOVED ==> used == [] && version == Version(above))
  {
    hide BucketAt, WellFormed, MergeVersion, BucketsOk, VersionsAged, Youngest, VersionsAtMost, Version;
    var base, above := Base(levels, i, e), levels[i - 1].snap;
    var used := UsedShadows(above, Youngest(levels, 2 * i - 2));
    PositionsOf(levels, i - 1);
    PositionsOf(levels, i);
    VersionBound(levels, protocol, 2 * i - 1);
    VersionBound(levels, protocol, 2 * i);
    YoungestBound(levels, protocol, 2 * i - 2);
    NoneBound(protocol);
    AgedAt(levels, 2 * i - 2, 2 * i - 1, 2 * i);
    EmptyVersion();
    VersionWithin(base, above, used, protocol);
    if Version(above) >= FIRST_PROTOCOL_SHADOWS_REMOVED { NoShadowsVersion(base, above); }
  }

  lemma EmptyVersion()
    ensures Version(EmptyBucket) == 0
  {
  }

  lemma VersionWithin(base: Bucket, above: Bucket, shadows: seq<Bucket>, protocol: nat)
    requires Version(base) <= protocol && Version(above) <= protocol && VersionsAtMost(shadows, protocol)
    ensures Version(base) <= MergeVersion(base, above, shadows) && Version(above) <= MergeVersion(base, above, shadows)
    ensures MergeVersion(base, above, shadows) <= protocol
    ensures Version(base) < FIRST_PROTOCOL_SHADOWS_REMOVED && Version(above) < FIRST_PROTOCOL_SHADOWS_REMOVED ==>
      MergeVersion(base, above, shadows) < FIRST_PROTOCOL_SHADOWS_REMOVED
  {
    hide MergeVersion, Version, VersionsAtMost;
    MergeVersionBounds(base, above, shadows);
  }

  lemma VersionBound(levels: Levels, protocol: nat, p: nat)
    requires BucketsOk(levels, protocol) && p < 22
    ensures Version(BucketAt(levels, p)) <= protocol
  {
    hide BucketAt, WellFormed;
  }

  lemma YoungestBound(levels: Levels, protocol: nat, n: nat)
    requires BucketsOk(levels, protocol) && n <= 22
    ensures VersionsAtMost(Youngest(levels, n), protocol)
  {
    hide BucketAt, WellFormed;
  }

  lemma NoneBound(v: nat)
    ensures VersionsAtMost([], v)
  {
  }

  lemma AgedAt(levels: Levels, hole: nat, p: nat, q: nat)
    requires VersionsAged(levels, hole) && p < q < 22 && p != hole
    ensures Version(BucketAt(levels, q)) >= FIRST_PROTOCOL_SHADOWS_REMOVED ==>
      Version(BucketAt(levels, p)) >= Version(BucketAt(levels, q))
  {
    hide BucketAt;
  }

  lemma NoShadowsVersion(base: Bucket, above: Bucket)
    ensures MergeVersion(base, above, []) == Max(Version(base), Version(above))
  {
  }

  /** The merge that level i starts meets no malformed or illegal entry. */
  lemma StartMergeable(levels: Levels, i: nat, e: bool, protocol: nat, m: Ledger, version: nat)
    requires 1 <= i < NUM_LEVELS && BucketsOk(levels, protocol) && KeysOk(levels, m)
    requires Version(Base(levels, i, e)) <= version && Version(levels[i - 1].snap) <= version
    ensures Mergeable(Base(levels, i, e).entries, levels[i - 1].snap.entries, version)
  {
    hide Legal, WellFormed;
    var base, above := Base(levels, i, e), levels[i - 1].snap;
    assert above == BucketAt(levels, 2 * i - 1) && levels[i].curr == BucketAt(levels, 2 * i);
    assert WellFormed(EmptyBucket) by { EmptyIsWellFormed(); }
    forall k ensures
      && (Find(base.entries, k).Init? || Find(above.entries, k).Init? ==> version >= FIRST_PROTOCOL_SUPPORTING_INITENTRY)
      && !Clash(Find(base.entries, k), Find(above.entries, k))
    {
      var c := Chain(levels, k);
      assert c[2 * i - 1] == At(above, k) && c[2 * i] == At(levels[i].curr, k) && Legal(c);
      NeighboursMerge(c, i, e);
      InitNeedsVersion(base, k);
      InitNeedsVersion(above, k);
    }
  }

  lemma EmptyIsWellFormed()
    ensures WellFormed(EmptyBucket)
  {
  }

  lemma InitNeedsVersion(b: Bucket, k: LedgerKey)
    requires WellFormed(b)
    ensures At(b, k).Init? ==> Version(b) >= FIRST_PROTOCOL_SUPPORTING_INITENTRY
  {
    if b.meta.None? { NoInitSlot(b, k); }
  }

  /** The started merge delivers for each key the merge of its inputs, or nothing. */
  lemma StartSlots(levels: Levels, i: nat, e: bool, mode: MergeMode, r: Bucket)
    requires 1 <= i < NUM_LEVELS
    requires var base, above := Base(levels, i, e), levels[i - 1].snap;
      && MergeEntries(base.entries, above.entries, mode) == Ok(r.entries)
      && Sorted(base.entries) && Sorted(above.entries)
    ensures SlotsPending(levels, i, e, r)
  {
    hide MergeEntries, Dropped, BucketAt, Find, Sorted, Chain;
    var base, above := Base(levels, i, e), levels[i - 1].snap;
    forall k ensures PendingSlot(Chain(levels, k), i, e, At(r, k)) {
      ChainAt(levels, k, i - 1);
      ChainAt(levels, k, i);
      NothingFound(k);
      MergeSlots(base.entries, above.entries, mode, k);
    }
  }

  /** The merge that level i starts succeeds, and delivers what the invariant asks for. */
  lemma StartDelivers(levels: Levels, i: nat, e: bool, protocol: nat, m: Ledger)
    requires 1 <= i < NUM_LEVELS
    requires BucketsOk(levels, protocol) && VersionsAged(levels, 2 * i - 2) && KeysOk(levels, m)
    ensures var base, above := Base(levels, i, e), levels[i - 1].snap;
      var used := UsedShadows(above, Youngest(levels, 2 * i - 2));
      var r := MergeBuckets(protocol, base, above, used, KeepDeadEntries(i));
      r.Ok? && Delivers(levels, i, e, protocol, r.value)
  {
    hide WellFormed, MergeVersion, MergeEntries, SlotsPending, KeysOk, VersionsAged, Mergeable, BucketAt, Youngest, Sorted;
    var base, above := Base(levels, i, e), levels[i - 1].snap;
    var used := UsedShadows(above, Youngest(levels, 2 * i - 2));
    var version := MergeVersion(base, above, used);
    var mode := ModeFor(version, used, KeepDeadEntries(i));
    PositionsOf(levels, i - 1);
    PositionsOf(levels, i);
    EmptyIsWellFormed();
    SortedEntries(base);
    SortedEntries(above);
    StartVersion(levels, i, e, protocol);
    StartMergeable(levels, i, e, protocol, m, version);
    MergeOkIff(base.entries, above.entries, mode);
    var r := MergeBuckets(protocol, base, above, used, KeepDeadEntries(i)).value;
    MergeWellFormed(protocol, base, above, used, KeepDeadEntries(i));
    StartSlots(levels, i, e, mode, r);
  }

  lemma SortedEntries(b: Bucket)
    requires WellFormed(b)
    ensures Sorted(b.entries)
    ensures Version(b) == 0 || Version(b) >= FIRST_PROTOCOL_SUPPORTING_INITENTRY
  {
  }
}
