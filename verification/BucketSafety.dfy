/** Merges that are safe to start, as can be told from the list before the close: what they leave out
    may be left out when they are committed, whatever happens in between. */
module BucketSafety {
  import opened Outcomes
  import opened LedgerKeys
  import opened Buckets
  import opened Lifecycle
  import opened BucketMerge
  import opened BucketFresh
  import opened ChainSteps
  import opened Bits
  import opened Schedule
  import opened BucketLevels
  import opened BucketShape
  import opened BucketInvariant
  import opened BucketClosing
  import opened BucketRuns
  import opened BucketTiming

  /** The merge of `base` with `above` does not drop a tombstone for its shadows when the oldest
      thing they say of the key is its creation. */
  predicate SafeDrop(base: Bucket, above: Bucket, shadows: seq<Bucket>, k: LedgerKey) {
    var s := Combine(At(base, k), At(above, k));
    s.Dead? && Elided(ModeFor(MergeVersion(base, above, shadows), shadows, true), k, s) ==>
      !Oldest(SlotsIn(shadows, k)).Init?
  }

  ghost predicate SafeMerge(base: Bucket, above: Bucket, shadows: seq<Bucket>) {
    forall k :: SafeDrop(base, above, shadows, k)
  }

  /** What the merge that level `i` starts when `ledger` closes begins with. */
  function StartBase(levels: Levels, i: nat, ledger: U32): Bucket
    requires i < NUM_LEVELS
  {
    if ShouldMergeWithEmptyCurr(ledger, i) then EmptyBucket else Commits(levels, i, ledger)
  }

  /** The merge that level `i` starts when `ledger` closes, if any, is safe. */
  ghost predicate SafeStart(levels: Levels, i: nat, ledger: U32)
    requires 1 <= i < NUM_LEVELS
  {
    var above := levels[i - 1].curr;
    LevelShouldSpill(ledger, i - 1) ==>
      SafeMerge(StartBase(levels, i, ledger), above, UsedShadows(above, Youngest(levels, 2 * i - 2)))
  }

  ghost predicate SafeStarts(levels: Levels, n: nat, ledger: U32)
    requires n < NUM_LEVELS
  {
    forall i :: 1 <= i <= n ==> SafeStart(levels, i, ledger)
  }

  /** Every merge that closing `ledger` starts is safe: this can be read off the list before. */
  ghost predicate SafeClose(levels: Levels, ledger: U32) {
    SafeStarts(levels, LAST_LEVEL, ledger)
  }

  /** No bucket from protocol 12 on lies above a bucket with entries from before protocol 11. */
  ghost predicate Guarded(levels: Levels, n: nat)
    requires n <= 22
  {
    forall p, q :: 0 <= p < q < n && Version(BucketAt(levels, p)) >= FIRST_PROTOCOL_SHADOWS_REMOVED ==>
      BucketAt(levels, q).entries == [] || Version(BucketAt(levels, q)) >= FIRST_PROTOCOL_SUPPORTING_INITENTRY
  }

  // ----- when a merge is safe -----

  /** A key is shadowed exactly when the shadows say something about it. */
  lemma {:induction false} ShadowedIff(bs: seq<Bucket>, k: LedgerKey)
    ensures Shadowed(bs, k) <==> !Oldest(SlotsIn(bs, k)).Absent?
    ensures (forall j :: 0 <= j < |bs| ==> !At(bs[j], k).Init?) ==> !Oldest(SlotsIn(bs, k)).Init?
  {
    if bs != [] {
      ShadowedIff(bs[1..], k);
      assert SlotsIn(bs, k)[1..] == SlotsIn(bs[1..], k);
      assert SlotsIn(bs, k)[0] == At(bs[0], k);
    }
  }

  /** The chain above level i when its curr is out: the shadows of the merge, and a gap. */
  lemma ChainOfShadows(levels: Levels, i: nat, k: LedgerKey)
    requires 1 <= i < NUM_LEVELS && levels[i - 1].curr == EmptyBucket
    ensures Chain(levels, k)[..2 * i - 1] == SlotsIn(Youngest(levels, 2 * i - 2), k) + [Absent]
    ensures Oldest(Chain(levels, k)[..2 * i - 1]) == Oldest(SlotsIn(Youngest(levels, 2 * i - 2), k))
  {
    var c, d := Chain(levels, k)[..2 * i - 1], SlotsIn(Youngest(levels, 2 * i - 2), k);
    forall p | 0 <= p < 2 * i - 1 ensures c[p] == (d + [Absent])[p] {
      assert c[p] == At(BucketAt(levels, p), k);
    }
    assert c == d + [Absent];
    Joined(d, [Absent]);
  }

  /** A merge of the old kind, which drops shadowed lifecycle entries, has no shadows from
      protocol 12 on. */
  ghost predicate CleanShadows(base: Bucket, above: Bucket, shadows: seq<Bucket>) {
    MergeVersion(base, above, shadows) < FIRST_PROTOCOL_SUPPORTING_INITENTRY
    && (base.entries != [] || above.entries != []) ==>
      VersionsAtMost(shadows, FIRST_PROTOCOL_SHADOWS_REMOVED - 1)
  }

  /** Buckets from before protocol 11 create nothing. */
  lemma OldShadowsSteady(shadows: seq<Bucket>, k: LedgerKey, version: nat)
    requires forall j :: 0 <= j < |shadows| ==> WellFormed(shadows[j]) && Version(shadows[j]) <= version
    requires version < FIRST_PROTOCOL_SUPPORTING_INITENTRY && Shadowed(shadows, k)
    ensures Steady(SlotsIn(shadows, k))
  {
    forall j | 0 <= j < |shadows| ensures !At(shadows[j], k).Init? { NoInitSlot(shadows[j], k); }
    ShadowedIff(shadows, k);
  }

  /** Where shadows are not from protocol 12 on, or lifecycle entries are kept, merging is safe. */
  lemma CleanIsSafe(base: Bucket, above: Bucket, shadows: seq<Bucket>)
    requires CleanShadows(base, above, shadows)
    requires forall j :: 0 <= j < |shadows| ==> WellFormed(shadows[j])
    ensures SafeMerge(base, above, shadows)
  {
    hide WellFormed, MergeVersion, Shadowed, Oldest;
    var mode := ModeFor(MergeVersion(base, above, shadows), shadows, true);
    forall k ensures SafeDrop(base, above, shadows, k) {
      var s := Combine(At(base, k), At(above, k));
      if s.Dead? && Elided(mode, k, s) {
        MergeVersionBounds(base, above, shadows);
        OldShadowsSteady(shadows, k, mode.version);
      }
    }
  }

  /** An entry is only dropped for its shadows where the newer part of its chain is steady. */
  lemma ElidedIsSteady(levels: Levels, i: nat, e: bool, k: LedgerKey, mode: MergeMode)
    requires 1 <= i < NUM_LEVELS && levels[i - 1].curr == EmptyBucket && Legal(Chain(levels, k))
    requires var base, above, shadows := Base(levels, i, e), levels[i - 1].snap, Youngest(levels, 2 * i - 2);
      && SafeDrop(base, above, shadows, k)
      && mode == ModeFor(MergeVersion(base, above, shadows), shadows, mode.keepDead)
      && Elided(mode, k, Combine(At(base, k), At(above, k)))
      && !Combine(At(base, k), At(above, k)).Absent?
    ensures Steady(Chain(levels, k)[..2 * i - 1])
  {
    hide Legal, MergeVersion, Shadowed, Oldest, BucketAt, Chain, Find;
    var c := Chain(levels, k);
    ChainOfShadows(levels, i, k);
    ShadowedIff(Youngest(levels, 2 * i - 2), k);
    ChainAt(levels, k, i - 1);
    ChainAt(levels, k, i);
    NothingFound(k);
    if Oldest(c[..2 * i - 1]).Init? { CreationFollowsDead(c, i, e); }
  }

  /** In a guarded list, merges of the old kind have no shadows from protocol 12 on. */
  lemma GuardCleans(levels: Levels, i: nat, emptyCurr: bool, protocol: nat, w: Bucket, base: Bucket)
    requires 1 <= i < NUM_LEVELS && Guarded(levels, 2 * i + 1)
    requires Delivers(levels, i, emptyCurr, protocol, w)
    requires base == w || base == EmptyBucket
    ensures CleanShadows(base, levels[i - 1].curr, Youngest(levels, 2 * i - 2))
  {
    hide Steady, WellFormed, Delivers, Guarded, MergeVersion;
    var above, shadows := levels[i - 1].curr, Youngest(levels, 2 * i - 2);
    MergeVersionBounds(base, above, shadows);
    if MergeVersion(base, above, shadows) < FIRST_PROTOCOL_SUPPORTING_INITENTRY && (base.entries != [] || above.entries != []) {
      var q := 2 * i - 2;
      if above.entries == [] { q := OldEntriesBelow(levels, i, emptyCurr, protocol, w); }
      forall j | 0 <= j < |shadows| ensures Version(shadows[j]) <= FIRST_PROTOCOL_SHADOWS_REMOVED - 1 {
        GuardedAt(levels, 2 * i + 1, j, q);
      }
    }
  }

  /** So closing a ledger on a guarded list is safe. */
  lemma GuardedIsSafe(levels: Levels, ledger: U32, protocol: nat, m: Ledger)
    requires 0 < ledger && Inv(levels, ledger - 1, protocol, m) && Guarded(levels, 22)
    ensures SafeClose(levels, ledger)
  {
    hide KeysOk, BucketsOk, VersionsAged, Guarded, Delivers, LevelHalf, LevelShouldSpill, ShouldMergeWithEmptyCurr, InputsOk, MergeBuckets, Multiple, CleanShadows, SafeMerge, Youngest;
    forall i | 1 <= i < NUM_LEVELS ensures SafeStart(levels, i, ledger) {
      if LevelShouldSpill(ledger, i - 1) {
        assert Pending(levels, i, ledger - 1, protocol);
        SpillIff(ledger, i - 1);
        EmptyCurrWhenDue(ledger, i);
        var e, w := LevelShouldSpill(ledger, i), Commits(levels, i, ledger);
        if !levels[i].next.IsLive() { NothingDelivers(levels, i, e, protocol); }
        GuardedPart(levels, 2 * i + 1);
        GuardCleans(levels, i, e, protocol, w, StartBase(levels, i, ledger));
        StartIsSafe(levels, i, protocol, StartBase(levels, i, ledger));
      }
    }
  }

  lemma GuardedPart(levels: Levels, n: nat)
    requires n <= 22 && Guarded(levels, 22)
    ensures Guarded(levels, n)
  {
    hide BucketAt, Version;
  }

  lemma StartIsSafe(levels: Levels, i: nat, protocol: nat, base: Bucket)
    requires 1 <= i < NUM_LEVELS && BucketsOk(levels, protocol)
    requires CleanShadows(base, levels[i - 1].curr, Youngest(levels, 2 * i - 2))
    ensures var above := levels[i - 1].curr;
      SafeMerge(base, above, UsedShadows(above, Youngest(levels, 2 * i - 2)))
  {
    hide WellFormed, BucketAt, CleanShadows, SafeMerge;
    var above, shadows := levels[i - 1].curr, Youngest(levels, 2 * i - 2);
    if UsedShadows(above, shadows) == [] {
      NoShadowsSafe(base, above);
    } else {
      CleanIsSafe(base, above, shadows);
    }
  }

  lemma NoShadowsSafe(base: Bucket, above: Bucket)
    ensures SafeMerge(base, above, [])
  {
  }

  lemma GuardedAt(levels: Levels, n: nat, p: nat, q: nat)
    requires p < q < n <= 22 && Guarded(levels, n)
    requires BucketAt(levels, q).entries != [] && Version(BucketAt(levels, q)) < FIRST_PROTOCOL_SUPPORTING_INITENTRY
    ensures Version(BucketAt(levels, p)) < FIRST_PROTOCOL_SHADOWS_REMOVED
  {
    hide BucketAt, Version;
  }

  /** Old entries that a merge delivers come from old entries in one of its inputs. */
  lemma OldEntriesBelow(levels: Levels, i: nat, emptyCurr: bool, protocol: nat, w: Bucket) returns (q: nat)
    requires 1 <= i < NUM_LEVELS && Delivers(levels, i, emptyCurr, protocol, w)
    requires w.entries != [] && Version(w) < FIRST_PROTOCOL_SUPPORTING_INITENTRY
    ensures 2 * i - 1 <= q <= 2 * i
    ensures BucketAt(levels, q).entries != [] && Version(BucketAt(levels, q)) < FIRST_PROTOCOL_SUPPORTING_INITENTRY
  {
    hide Steady, WellFormed, Legal, Newest, Oldest;
    var k := FindSome(w.entries);
    var c := Chain(levels, k);
    assert PendingSlot(c, i, emptyCurr, At(w, k));
    assert c[2 * i] == At(BucketAt(levels, 2 * i), k) && c[2 * i - 1] == At(BucketAt(levels, 2 * i - 1), k);
    assert BucketAt(levels, 2 * i) == levels[i].curr && BucketAt(levels, 2 * i - 1) == levels[i - 1].snap;
    q := if !emptyCurr && levels[i].curr.entries != [] then 2 * i else 2 * i - 1;
  }

  // ----- what is pending stays steady -----

  ghost predicate SteadySlots(levels: Levels, i: nat, e: bool, w: Bucket)
    requires 1 <= i < NUM_LEVELS
  {
    forall k :: SteadySlot(Chain(levels, k), i, e, At(w, k))
  }

  /** What the merge pending on level `j` leaves out, it leaves out for good. */
  ghost predicate SteadyLevel(levels: Levels, j: nat, ledger: U32)
    requires 1 <= j < NUM_LEVELS
  {
    var f := levels[j].next;
    f.IsLive() && f.Resolve().Ok? ==> SteadySlots(levels, j, ShouldMergeWithEmptyCurr(ledger, j), f.Resolve().value)
  }

  ghost predicate AllSteady(levels: Levels, lo: nat, hi: nat, ledger: U32)
    requires 1 <= lo && hi <= NUM_LEVELS
  {
    forall j :: lo <= j < hi ==> SteadyLevel(levels, j, ledger)
  }

  /** While `ledger` is closed and only the levels up to `i` remain to be visited. */
  ghost predicate SafeMid(levels: Levels, i: nat, ledger: U32)
    requires i < NUM_LEVELS && 0 < ledger
  {
    && AllSteady(levels, i + 1, NUM_LEVELS, ledger) && AllSteady(levels, 1, i + 1, ledger - 1)
    && SafeStarts(levels, i, ledger)
  }

  /** A due level commits what its merge promised. */
  lemma CommitIsSteady(levels: Levels, i: nat, ledger: U32, protocol: nat, m: Ledger)
    requires 1 <= i < NUM_LEVELS && 0 < ledger && LevelShouldSpill(ledger, i - 1)
    requires Mid(levels, i, ledger, protocol, m) && SafeMid(levels, i, ledger)
    ensures SteadySlots(levels, i, LevelShouldSpill(ledger, i), Commits(levels, i, ledger))
  {
    hide KeysOk, BucketsOk, VersionsAged, SafeStarts, Delivers, LevelHalf, LevelShouldSpill, ShouldMergeWithEmptyCurr, InputsOk, MergeBuckets, Multiple, SteadySlots;
    assert Pending(levels, i, ledger - 1, protocol) && SteadyLevel(levels, i, ledger - 1);
    SpillIff(ledger, i - 1);
    EmptyCurrWhenDue(ledger, i);
    if !levels[i].next.IsLive() { NothingIsSteady(levels, i, LevelShouldSpill(ledger, i)); }
  }

  lemma NothingIsSteady(levels: Levels, i: nat, e: bool)
    requires 1 <= i < NUM_LEVELS && levels[i - 1].snap == EmptyBucket && levels[i].curr == EmptyBucket
    ensures SteadySlots(levels, i, e, EmptyBucket)
  {
    hide Steady, Chain;
    forall k ensures SteadySlot(Chain(levels, k), i, e, Absent) {
      ChainAt(levels, k, i - 1);
      ChainAt(levels, k, i);
      NothingFound(k);
    }
  }

  /** So it leaves out only what may be left out. */
  lemma SteadyCommitKeeps(levels: Levels, i: nat, e: bool, w: Bucket)
    requires 1 <= i < NUM_LEVELS && Ends(levels) && SteadySlots(levels, i, e, w)
    ensures DropsKeep(levels, i, e, w)
  {
    hide SteadySlot, DropKeeps, Merged, Chain;
    forall k ensures At(w, k) == Merged(Chain(levels, k), i, e) || DropKeeps(Chain(levels, k), i, e) {
      assert SteadySlot(Chain(levels, k), i, e, At(w, k));
      ChainAt(levels, k, LAST_LEVEL);
      NothingFound(k);
      SteadyMayDrop(Chain(levels, k), i, e, At(w, k));
    }
  }

  lemma ShiftSteadySlots(levels: Levels, i: nat, emptyCurr: bool, w: Bucket, next: FutureBucket, m: Ledger, j: nat, e: bool, u: Bucket)
    requires 1 <= i < NUM_LEVELS && 1 <= j < NUM_LEVELS && j != i && (j == i - 1 ==> e) && KeysOk(levels, m)
    requires emptyCurr ==> levels[i].curr == EmptyBucket
    requires SteadySlots(levels, i, emptyCurr, w) && SteadySlots(levels, j, e, u)
    ensures SteadySlots(Shift(levels, i, w, next), j, e, u)
  {
    hide SteadySlot, Shift, Chain, Legal, View;
    forall k ensures SteadySlot(Chain(Shift(levels, i, w, next), k), j, e, At(u, k)) {
      var c := Chain(levels, k);
      ChainAt(levels, k, i);
      NothingFound(k);
      assert Legal(c) && SteadySlot(c, i, emptyCurr, At(w, k)) && SteadySlot(c, j, e, At(u, k));
      ShiftChain(levels, i, w, next, k);
      if i < j {
        ShiftSteadyOlder(c, i, emptyCurr, At(w, k), j, e, At(u, k));
      } else {
        ShiftSteadyYounger(c, i, At(w, k), j, e, At(u, k));
      }
    }
  }

  lemma ShiftSteadyLevel(levels: Levels, i: nat, emptyCurr: bool, w: Bucket, next: FutureBucket, m: Ledger, j: nat, ledger: U32)
    requires 1 <= i < NUM_LEVELS && 1 <= j < NUM_LEVELS && j != i && KeysOk(levels, m)
    requires j == i - 1 ==> ShouldMergeWithEmptyCurr(ledger, j)
    requires emptyCurr ==> levels[i].curr == EmptyBucket
    requires SteadySlots(levels, i, emptyCurr, w) && SteadyLevel(levels, j, ledger)
    ensures SteadyLevel(Shift(levels, i, w, next), j, ledger)
  {
    hide ShouldMergeWithEmptyCurr, SteadySlots, KeysOk, MergeBuckets;
    var f := levels[j].next;
    if f.IsLive() && f.Resolve().Ok? {
      ShiftSteadySlots(levels, i, emptyCurr, w, next, m, j, ShouldMergeWithEmptyCurr(ledger, j), f.Resolve().value);
    }
  }

  /** A safe merge leaves out entries only over steady slots, or tombstones at the last level. */
  lemma StartSteady(levels: Levels, i: nat, e: bool, m: Ledger, mode: MergeMode, r: Bucket)
    requires 1 <= i < NUM_LEVELS && levels[i - 1].curr == EmptyBucket
    requires KeysOk(levels, m)
    requires var base, above, shadows := Base(levels, i, e), levels[i - 1].snap, Youngest(levels, 2 * i - 2);
      && SafeMerge(base, above, UsedShadows(above, shadows))
      && mode == ModeFor(MergeVersion(base, above, UsedShadows(above, shadows)), UsedShadows(above, shadows), KeepDeadEntries(i))
      && MergeEntries(base.entries, above.entries, mode) == Ok(r.entries)
      && Sorted(base.entries) && Sorted(above.entries)
    ensures SteadySlots(levels, i, e, r)
  {
    hide Legal, WellFormed, MergeVersion, Shadowed, Steady, MergeEntries, SafeDrop, BucketAt, Find, Sorted, Chain;
    var base, above := Base(levels, i, e), levels[i - 1].snap;
    forall k ensures SteadySlot(Chain(levels, k), i, e, At(r, k)) {
      var c := Chain(levels, k);
      ChainAt(levels, k, i - 1);
      ChainAt(levels, k, i);
      NothingFound(k);
      assert Legal(c);
      MergeSlots(base.entries, above.entries, mode, k);
      var s := Combine(At(base, k), At(above, k));
      if !s.Absent? && Elided(mode, k, s) {
        assert mode.shadows != [] by { ShadowedBySome(mode.shadows, k); }
        assert SafeDrop(base, above, mode.shadows, k);
        ElidedIsSteady(levels, i, e, k, mode);
      }
    }
  }

  lemma ShadowedBySome(bs: seq<Bucket>, k: LedgerKey)
    requires Shadowed(bs, k)
    ensures bs != []
  {
  }

  /** A safe merge that has just been started is steady. */
  lemma StartIsSteady(levels: Levels, i: nat, ledger: U32, protocol: nat, m: Ledger)
    requires 1 <= i < NUM_LEVELS && levels[i - 1].curr == EmptyBucket
    requires BucketsOk(levels, protocol) && KeysOk(levels, m)
    requires var above, e := levels[i - 1].snap, ShouldMergeWithEmptyCurr(ledger, i);
      var used := UsedShadows(above, Youngest(levels, 2 * i - 2));
      && levels[i].next == LiveInputs(Base(levels, i, e), above, used, protocol, KeepDeadEntries(i))
      && SafeMerge(Base(levels, i, e), above, used)
    ensures SteadyLevel(levels, i, ledger)
  {
    hide ShouldMergeWithEmptyCurr, KeysOk, MergeVersion, MergeEntries, SteadySlots, UsedShadows, Youngest, SafeMerge, BucketAt, WellFormed, Sorted;
    var above, e := levels[i - 1].snap, ShouldMergeWithEmptyCurr(ledger, i);
    var f := levels[i].next;
    if f.Resolve().Ok? {
      PositionsOf(levels, i - 1);
      PositionsOf(levels, i);
      EmptyIsWellFormed();
      SortedEntries(Base(levels, i, e));
      SortedEntries(above);
      StartSteady(levels, i, e, m, ModeFor(MergeVersion(f.curr, f.snap, f.shadows), f.shadows, f.keepDead), f.Resolve().value);
    }
  }

  /** Taking a spill at level `i` does not touch what the younger levels' merges start from. */
  lemma ShiftSafe(levels: Levels, i: nat, w: Bucket, next: FutureBucket, ledger: U32)
    requires 1 <= i < NUM_LEVELS && LevelShouldSpill(ledger, i - 1) && SafeStarts(levels, i, ledger)
    ensures SafeStarts(Shift(levels, i, w, next), i - 1, ledger)
  {
    hide LevelShouldSpill, ShouldMergeWithEmptyCurr, SafeMerge, UsedShadows, Youngest;
    var levels' := Shift(levels, i, w, next);
    forall j | 1 <= j <= i - 1 ensures SafeStart(levels', j, ledger) {
      assert SafeStart(levels, j, ledger);
      ShiftYoungest(levels, i, w, next, 2 * j - 2);
    }
  }

  /** Level i takes a spill. */
  lemma SafeSpill(levels: Levels, i: nat, ledger: U32, protocol: nat, m: Ledger)
    requires 1 <= i < NUM_LEVELS && 0 < ledger && LevelShouldSpill(ledger, i - 1)
    requires Mid(levels, i, ledger, protocol, m) && SafeMid(levels, i, ledger)
    ensures CommitKeeps(levels, i, ledger)
    ensures var r := SpillInto(levels, i, ledger, protocol, Youngest(levels, 2 * i - 2));
      r.Ok? && SafeMid(r.value, i - 1, ledger)
  {
    hide ShouldMergeWithEmptyCurr, LevelShouldSpill, KeysOk, BucketsOk, VersionsAged, SafeStart, SafeMerge, Delivers, LevelHalf, Pending, MergeBuckets, SpillInto, UsedShadows, SteadySlots, SteadyLevel, DropsKeep, Shift, Commits;
    var e, w := LevelShouldSpill(ledger, i), Commits(levels, i, ledger);
    CommitIsSteady(levels, i, ledger, protocol, m);
    SteadyCommitKeeps(levels, i, e, w);
    SpillKeepsIff(levels, i, ledger, protocol, m);
    var r := SpillInto(levels, i, ledger, protocol, Youngest(levels, 2 * i - 2)).value;
    var above := levels[i - 1].curr;
    var next := LiveInputs(StartBase(levels, i, ledger), above, UsedShadows(above, Youngest(levels, 2 * i - 2)), protocol, KeepDeadEntries(i));
    SpillIsShift(levels, i, ledger, protocol, m);
    assert r == Shift(levels, i, w, next);
    ShiftSafe(levels, i, w, next, ledger);
    StartedSafely(levels, i, ledger, protocol, m);
    forall j | i + 1 <= j < NUM_LEVELS ensures SteadyLevel(r, j, ledger) {
      ShiftSteadyLevel(levels, i, e, w, next, m, j, ledger);
    }
    var before := ledger - 1;
    forall j | 1 <= j < i ensures SteadyLevel(r, j, before) {
      YoungerStarted(ledger, i, j);
      ShiftSteadyLevel(levels, i, e, w, next, m, j, before);
    }
  }

  /** The spill, as a shift of what the level commits. */
  lemma SpillIsShift(levels: Levels, i: nat, ledger: U32, protocol: nat, m: Ledger)
    requires 1 <= i < NUM_LEVELS && 0 < ledger && LevelShouldSpill(ledger, i - 1) && Mid(levels, i, ledger, protocol, m)
    ensures var w, above := Commits(levels, i, ledger), levels[i - 1].curr;
      SpillInto(levels, i, ledger, protocol, Youngest(levels, 2 * i - 2)) ==
      Ok(Shift(levels, i, w, LiveInputs(StartBase(levels, i, ledger), above, UsedShadows(above, Youngest(levels, 2 * i - 2)), protocol, KeepDeadEntries(i))))
  {
    hide ShouldMergeWithEmptyCurr, LevelShouldSpill, KeysOk, BucketsOk, VersionsAged, Delivers, LevelHalf, MergeBuckets, SpillInto, UsedShadows, Shift, Youngest, InputsOk;
    assert Pending(levels, i, ledger - 1, protocol);
    var w := CommitDelivers(levels, i, ledger, protocol);
    assert w == Commits(levels, i, ledger);
    SpilledInto(levels, i, ledger, protocol, w);
  }

  lemma StartedSafely(levels: Levels, i: nat, ledger: U32, protocol: nat, m: Ledger)
    requires 1 <= i < NUM_LEVELS && 0 < ledger && LevelShouldSpill(ledger, i - 1)
    requires Mid(levels, i, ledger, protocol, m) && SafeMid(levels, i, ledger) && CommitKeeps(levels, i, ledger)
    ensures var r := SpillInto(levels, i, ledger, protocol, Youngest(levels, 2 * i - 2));
      r.Ok? && SteadyLevel(r.value, i, ledger)
  {
    hide ShouldMergeWithEmptyCurr, LevelShouldSpill, KeysOk, BucketsOk, VersionsAged, SafeMerge, LevelHalf, Pending, MergeBuckets, SpillInto, UsedShadows, SteadyLevel, CommitKeeps, Commits, Youngest;
    SpillKeepsIff(levels, i, ledger, protocol, m);
    SpillIsShift(levels, i, ledger, protocol, m);
    assert SafeStart(levels, i, ledger);
    var r := SpillInto(levels, i, ledger, protocol, Youngest(levels, 2 * i - 2)).value;
    ShiftYoungest(levels, i, Commits(levels, i, ledger), r[i].next, 2 * i - 2);
    StartIsSteady(r, i, ledger, protocol, m);
  }

  /** Level i is not due. */
  lemma SafeNoSpill(levels: Levels, i: nat, ledger: U32)
    requires 1 <= i < NUM_LEVELS && 0 < ledger && !LevelShouldSpill(ledger, i - 1) && SafeMid(levels, i, ledger)
    ensures SafeMid(levels, i - 1, ledger)
  {
    hide ShouldMergeWithEmptyCurr, LevelShouldSpill, LevelHalf, Multiple, MergeBuckets, SafeStart, SteadySlots;
    SpillIff(ledger, i - 1);
    EmptyCurrBetween(ledger, i);
    assert SteadyLevel(levels, i, ledger - 1);
    assert SteadyLevel(levels, i, ledger);
  }

  lemma {:induction false} SafeDown(levels: Levels, i: nat, ledger: U32, protocol: nat, m: Ledger)
    requires i < NUM_LEVELS && 0 < ledger && Mid(levels, i, ledger, protocol, m) && SafeMid(levels, i, ledger)
    ensures var shadows := Youngest(levels, if i == 0 then 0 else 2 * (i - 1));
      var r := SpillDown(levels, i, ledger, protocol, shadows);
      KeepsDown(levels, i, ledger, protocol, shadows) && (r.Ok? ==> AllSteady(r.value, 1, NUM_LEVELS, ledger))
    decreases i
  {
    hide LevelShouldSpill, Mid, SpillInto, CommitKeeps, SteadyLevel, SafeStarts;
    if i > 0 {
      var shadows, n := Youngest(levels, 2 * (i - 1)), if i == 1 then 0 else 2 * (i - 2);
      var levels' := levels;
      if LevelShouldSpill(ledger, i - 1) {
        SafeSpill(levels, i, ledger, protocol, m);
        SpillKeepsIff(levels, i, ledger, protocol, m);
        levels' := SpillInto(levels, i, ledger, protocol, shadows).value;
      } else {
        SafeNoSpill(levels, i, ledger);
        NoSpillKeeps(levels, i, ledger, protocol, m);
      }
      YoungestShrinks(levels, levels', 2 * (i - 1), n);
      assert Youngest(levels', n) == if i == 1 then [] else shadows[..2 * (i - 2)];
      SafeDown(levels', i - 1, ledger, protocol, m);
    }
  }

  // ----- closes and runs -----

  /** Taking in the batch leaves steady what is pending. */
  lemma AbsorbSteady(levels: Levels, ledger: U32, protocol: nat, m: Ledger, batch: Bucket)
    requires KeysOk(levels, m) && BatchOk(batch, protocol, m) && BucketsOk(levels, protocol)
    requires AllSteady(levels, 1, NUM_LEVELS, ledger)
    ensures var r := AbsorbFresh(levels, ledger, protocol, batch);
      r.Ok? && AllSteady(r.value, 1, NUM_LEVELS, ledger)
  {
    hide KeysOk, BatchOk, BucketsOk, MergeBuckets, SteadyLevel;
    var r := FrontMerge(levels, m, batch, protocol);
    assert AbsorbFresh(levels, ledger, protocol, batch) == Ok(FrontLevels(levels, r));
    forall j | 1 <= j < NUM_LEVELS ensures SteadyLevel(FrontLevels(levels, r), j, ledger) {
      FrontSteadyLevel(levels, m, batch, protocol, r, j, ledger);
    }
  }

  lemma FrontSteadyLevel(levels: Levels, m: Ledger, batch: Bucket, protocol: nat, r: Bucket, j: nat, ledger: U32)
    requires KeysOk(levels, m) && BatchOk(batch, protocol, m) && 1 <= j < NUM_LEVELS
    requires forall k :: At(r, k) == Combine(At(levels[0].curr, k), At(batch, k))
    requires SteadyLevel(levels, j, ledger)
    ensures SteadyLevel(FrontLevels(levels, r), j, ledger)
  {
    hide Combine, Legal, View, SteadySlot, KeysOk, BatchOk, ShouldMergeWithEmptyCurr, MergeBuckets, Chain;
    var f := levels[j].next;
    if f.IsLive() && f.Resolve().Ok? {
      var e, u := ShouldMergeWithEmptyCurr(ledger, j), f.Resolve().value;
      forall k ensures SteadySlot(Chain(FrontLevels(levels, r), k), j, e, At(u, k)) {
        assert SteadySlot(Chain(levels, k), j, e, At(u, k));
        BatchCreates(levels, m, batch, protocol, k);
        FrontChain(levels, r, batch, k);
        FrontPending(Chain(levels, k), At(batch, k), j, e, At(u, k));
      }
    }
  }

  /** So does anything that leaves the buckets and the outcomes of merges the same. */
  lemma SameSteady(a: Levels, b: Levels, ledger: U32)
    requires SameLevels(a, b) && AllSteady(a, 1, NUM_LEVELS, ledger)
    ensures AllSteady(b, 1, NUM_LEVELS, ledger)
  {
    hide SteadySlot, ShouldMergeWithEmptyCurr, MergeBuckets, Chain, SameLevels, At;
    forall j | 1 <= j < NUM_LEVELS ensures SteadyLevel(b, j, ledger) {
      assert SteadyLevel(a, j, ledger);
      SameAt(a, b, j);
      forall k ensures Chain(a, k) == Chain(b, k) { SameChain(a, b, k); }
    }
  }

  /** Closing a ledger on a list whose pending merges are steady, if the merges it starts are safe. */
  lemma SafeCloseKeeps(levels: Levels, ledger: U32, protocol0: nat, protocol: nat, m: Ledger, batch: Bucket, ready: set<nat>)
    requires 0 < ledger && protocol0 <= protocol && Inv(levels, ledger - 1, protocol0, m) && BatchOk(batch, protocol, m)
    requires AllSteady(levels, 1, NUM_LEVELS, ledger - 1) && SafeClose(levels, ledger)
    ensures KeepsClose(levels, ledger, protocol)
    ensures var r := AddBatch(levels, ledger, protocol, batch, ready);
      r.Ok? && AllSteady(r.value, 1, NUM_LEVELS, ledger)
  {
    hide Inv, SpillDown, AbsorbFresh, BatchOk, KeepsDown, KeysOk, BucketsOk, VersionsAged, ResolveFrom, SteadyLevel, SafeStarts, Pending, LevelShouldSpill, SameLevels, Youngest, ShouldMergeWithEmptyCurr;
    ClosingStarts(levels, ledger, protocol0, protocol, m);
    SafeDown(levels, LAST_LEVEL, ledger, protocol, m);
    SpillDownKeepsIff(levels, LAST_LEVEL, ledger, protocol, m);
    var spilled := SpillDown(levels, LAST_LEVEL, ledger, protocol, Youngest(levels, 18)).value;
    AbsorbSteady(spilled, ledger, protocol, m, batch);
    AbsorbKeeps(spilled, ledger, protocol, m, batch);
    var absorbed := AbsorbFresh(spilled, ledger, protocol, batch).value;
    ResolveKeeps(absorbed, 0, ready, ledger, protocol, Apply(m, batch.entries));
    InvSame(absorbed, ledger, protocol, Apply(m, batch.entries));
    ResolveSame(absorbed, 0, ready);
    SameSteady(absorbed, ResolveFrom(absorbed, 0, ready).value, ledger);
  }

  lemma InvSame(levels: Levels, ledger: U32, protocol: nat, m: Ledger)
    requires Inv(levels, ledger, protocol, m)
    ensures SameLevels(levels, levels)
  {
    hide BucketsOk, KeysOk, VersionsAged, Delivers, InputsOk, LevelHalf, ShouldMergeWithEmptyCurr, MergeBuckets;
    forall i | 0 <= i < 11 ensures SameLevel(levels[i], levels[i]) {
      if i > 0 { assert Pending(levels, i, ledger, protocol); }
    }
  }

  /** Every merge that the run starts is safe. */
  ghost predicate SafeRun(es: seq<Event>)
    requires LedgerCount(es) < TWO_32
  {
    es == [] || (SafeRun(es[..|es| - 1]) && SafeEvent(es[..|es| - 1], es[|es| - 1], LedgerCount(es)))
  }

  ghost predicate SafeEvent(before: seq<Event>, e: Event, ledger: U32)
    requires LedgerCount(before) < TWO_32
  {
    e.CloseLedger? && StateAfter(before).Ok? ==> SafeClose(StateAfter(before).value, ledger)
  }

  lemma NothingPending(ledger: U32)
    ensures AllSteady(EmptyLevels, 1, NUM_LEVELS, ledger)
  {
    hide SteadySlots, MergeBuckets, ShouldMergeWithEmptyCurr;
    forall j | 1 <= j < NUM_LEVELS ensures SteadyLevel(EmptyLevels, j, ledger) {
      assert EmptyLevels[j] == EmptyLevel;
    }
  }

  /** If every merge a valid run starts is safe, every commit leaves out only what may be left out. */
  lemma {:induction false} SafeRunKeeps(es: seq<Event>)
    requires LedgerCount(es) < TWO_32 && ValidRun(es) && SafeRun(es)
    ensures KeepsRun(es) && StateAfter(es).Ok? && AllSteady(StateAfter(es).value, 1, NUM_LEVELS, LedgerCount(es))
  {
    hide Inv, AddBatch, RestartFrom, Saved, SafeClose, KeepsClose, AllSteady, Closed, Fresh, SameLevels, AllInputsOk;
    if es == [] {
      NothingPending(0);
    } else {
      var before, e := es[..|es| - 1], es[|es| - 1];
      SafeRunKeeps(before);
      RunKeeps(before);
      var levels, m := StateAfter(before).value, LedgerAfter(before);
      match e
      case CloseLedger(protocol, batch, ready) =>
        FreshIsOk(protocol, batch, m);
        SafeCloseKeeps(levels, LedgerCount(es), ProtocolAfter(before), protocol, m, Fresh(protocol, batch), ready);
      case Restart(cleared, maxVersion) =>
        RestartKeeps(levels, cleared, maxVersion, LedgerCount(es), ProtocolAfter(es), m);
        SameSteady(levels, StateAfter(es).value, LedgerCount(es));
    }
  }
}
