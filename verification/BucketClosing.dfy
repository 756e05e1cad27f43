/** Closing a ledger, step by step: every step succeeds and keeps the invariant. */
module BucketClosing {
  import opened Outcomes
  import opened LedgerKeys
  import opened Buckets
  import opened Lifecycle
  import opened BucketMerge
  import opened ChainSteps
  import opened Bits
  import opened Schedule
  import opened BucketLevels
  import opened BucketShape
  import opened BucketInvariant

  lemma FindSome(es: seq<BucketEntry>) returns (k: LedgerKey)
    requires es != []
    ensures Find(es, k) != Absent
  {
    k := es[0].key;
  }

  lemma YoungestShrinks(levels: Levels, levels': Levels, n: nat, n': nat)
    requires n' <= n <= 22
    requires forall p :: 0 <= p < n' ==> BucketAt(levels, p) == BucketAt(levels', p)
    ensures Youngest(levels', n') == Youngest(levels, n)[..n']
  {
  }

  /** The levels after level i has taken a spill. */
  lemma SpilledInto(levels: Levels, i: nat, ledger: U32, protocol: nat, w: Bucket)
    requires 1 <= i < NUM_LEVELS
    requires levels[i].Committed() == Ok(Level(w, levels[i].snap, Clear))
    ensures var shadows := Youngest(levels, 2 * i - 2);
      var above, e := levels[i - 1].curr, ShouldMergeWithEmptyCurr(ledger, i);
      SpillInto(levels, i, ledger, protocol, shadows) ==
      Ok(Shift(levels, i, w,
               LiveInputs(if e then EmptyBucket else w, above, UsedShadows(above, shadows), protocol, KeepDeadEntries(i))))
  {
    hide ShouldMergeWithEmptyCurr;
  }

  /** A merge that has just been started is pending. */
  lemma StartIsPending(levels: Levels, i: nat, ledger: U32, protocol: nat, m: Ledger)
    requires 1 <= i < NUM_LEVELS && ledger >= LevelHalf(i - 1)
    requires BucketsOk(levels, protocol) && VersionsAged(levels, 2 * i - 2) && KeysOk(levels, m)
    requires var above, e := levels[i - 1].snap, ShouldMergeWithEmptyCurr(ledger, i);
      levels[i].next == LiveInputs(Base(levels, i, e), above, UsedShadows(above, Youngest(levels, 2 * i - 2)), protocol, KeepDeadEntries(i))
    ensures Pending(levels, i, ledger, protocol)
  {
    hide ShouldMergeWithEmptyCurr, KeysOk, BucketsOk, VersionsAged, MergeBuckets, MergeVersion, Delivers, LevelHalf, UsedShadows, Youngest, Version;
    StartDelivers(levels, i, ShouldMergeWithEmptyCurr(ledger, i), protocol, m);
    StartVersion(levels, i, ShouldMergeWithEmptyCurr(ledger, i), protocol);
  }

  lemma FirstSpill(ledger: nat, h: nat)
    requires h > 0 && ledger > 0 && Multiple(ledger, h)
    ensures ledger >= h
  {
  }

  /** What a merge delivers does not depend on the futures. */
  lemma SameBucketsDeliver(levels: Levels, levels': Levels, i: nat, e: bool, protocol: nat, w: Bucket)
    requires 1 <= i < NUM_LEVELS && Delivers(levels, i, e, protocol, w)
    requires forall p :: 0 <= p < 22 ==> BucketAt(levels, p) == BucketAt(levels', p)
    ensures Delivers(levels', i, e, protocol, w)
  {
    hide MergeBuckets, PendingSlot, WellFormed;
    assert levels[i].curr == BucketAt(levels, 2 * i) == BucketAt(levels', 2 * i) == levels'[i].curr;
    assert levels[i - 1].snap == BucketAt(levels, 2 * i - 1) == BucketAt(levels', 2 * i - 1) == levels'[i - 1].snap;
    forall k ensures PendingSlot(Chain(levels', k), i, e, At(w, k)) {
      assert Chain(levels', k) == Chain(levels, k);
      assert PendingSlot(Chain(levels, k), i, e, At(w, k));
    }
  }

  lemma {:induction false} HalvesGrow(a: nat, b: nat)
    requires a < b < NUM_LEVELS
    ensures LevelHalf(a) < LevelHalf(b)
  {
    LevelFacts(b);
    if a < b - 1 { HalvesGrow(a, b - 1); }
  }

  lemma YoungerStarted(ledger: U32, i: nat, j: nat)
    requires 1 <= j < i < NUM_LEVELS && 0 < ledger && LevelShouldSpill(ledger, i - 1)
    ensures LevelHalf(j - 1) <= ledger - 1
    ensures j == i - 1 ==> ShouldMergeWithEmptyCurr(ledger - 1, j)
  {
    hide ShouldMergeWithEmptyCurr, LevelShouldSpill, LevelHalf, Multiple;
    HalvesGrow(j - 1, i - 1);
    SpillIff(ledger, i - 1);
    FirstSpill(ledger, LevelHalf(i - 1));
    if j == i - 1 {
      SpillDownward(ledger, i - 1);
      SpillIff(ledger, i - 2);
      EmptyCurrWhenDue(ledger, i - 1);
    }
  }

  lemma OthersAfterSpill(levels: Levels, i: nat, ledger: U32, protocol: nat, m: Ledger, w: Bucket, next: FutureBucket)
    requires 1 <= i < NUM_LEVELS && 0 < ledger && LevelShouldSpill(ledger, i - 1)
    requires Mid(levels, i, ledger, protocol, m)
    ensures AllPending(Shift(levels, i, w, next), i + 1, NUM_LEVELS, ledger, protocol)
    ensures AllPending(Shift(levels, i, w, next), 1, i, ledger - 1, protocol)
  {
    hide ShouldMergeWithEmptyCurr, LevelShouldSpill, KeysOk, BucketsOk, VersionsAged, LevelHalf, Pending, Shift;
    forall j | i + 1 <= j < NUM_LEVELS ensures Pending(Shift(levels, i, w, next), j, ledger, protocol) {
      ShiftPendingLevel(levels, i, protocol, w, next, j, ledger);
    }
    var before := ledger - 1;
    forall j | 1 <= j < i ensures Pending(Shift(levels, i, w, next), j, before, protocol) {
      YoungerStarted(ledger, i, j);
      ShiftPendingLevel(levels, i, protocol, w, next, j, before);
    }
  }

  /** What level `i` commits leaves out only what may be left out. */
  ghost predicate CommitKeeps(levels: Levels, i: nat, ledger: U32)
    requires 1 <= i < NUM_LEVELS
  {
    DropsKeep(levels, i, LevelShouldSpill(ledger, i), Commits(levels, i, ledger))
  }

  /** Level i takes a spill: this succeeds and touches no younger bucket, and it keeps every key's
      history legal and the ledger the same if and only if the commit leaves out only what may be left
      out. Then it keeps the whole invariant. */
  lemma SpillKeepsIff(levels: Levels, i: nat, ledger: U32, protocol: nat, m: Ledger)
    requires 1 <= i < NUM_LEVELS && 0 < ledger && LevelShouldSpill(ledger, i - 1)
    requires Mid(levels, i, ledger, protocol, m)
    ensures var r := SpillInto(levels, i, ledger, protocol, Youngest(levels, 2 * i - 2));
      && r.Ok? && (KeysOk(r.value, m) <==> CommitKeeps(levels, i, ledger))
      && (CommitKeeps(levels, i, ledger) ==> Mid(r.value, i - 1, ledger, protocol, m))
      && (forall p :: 0 <= p < 2 * i - 2 ==> BucketAt(r.value, p) == BucketAt(levels, p))
  {
    hide ShouldMergeWithEmptyCurr, LevelShouldSpill, KeysOk, BucketsOk, VersionsAged, Delivers, LevelHalf, Pending, MergeBuckets, SpillInto, UsedShadows, DropsKeep;
    assert Pending(levels, i, ledger - 1, protocol);
    var w := CommitDelivers(levels, i, ledger, protocol);
    SpilledInto(levels, i, ledger, protocol, w);
    var spilled := LevelShouldSpill(ledger, i);
    var next := SpillInto(levels, i, ledger, protocol, Youngest(levels, 2 * i - 2)).value[i].next;
    DeliversOk(levels, i, spilled, protocol, w);
    CommitKeepsIff(levels, i, spilled, w, next, m);
    if CommitKeeps(levels, i, ledger) {
      ShiftBuckets(levels, i, spilled, protocol, w, next, Hole(i, ledger));
      SpillIff(ledger, i - 1);
      FirstSpill(ledger, LevelHalf(i - 1));
      ShiftYoungest(levels, i, w, next, 2 * i - 2);
      StartIsPending(Shift(levels, i, w, next), i, ledger, protocol, m);
      OthersAfterSpill(levels, i, ledger, protocol, m, w, next);
    }
  }

  /** Level i is not due. */
  lemma NoSpillKeeps(levels: Levels, i: nat, ledger: U32, protocol: nat, m: Ledger)
    requires 1 <= i < NUM_LEVELS && 0 < ledger && !LevelShouldSpill(ledger, i - 1)
    requires Mid(levels, i, ledger, protocol, m)
    ensures Mid(levels, i - 1, ledger, protocol, m)
  {
    hide ShouldMergeWithEmptyCurr, LevelShouldSpill, KeysOk, BucketsOk, VersionsAged, Delivers, LevelHalf, Multiple, MergeBuckets;
    if LevelShouldSpill(ledger, i) { SpillDownward(ledger, i); }
    SpillIff(ledger, i - 1);
    EmptyCurrBetween(ledger, i);
    HalfIsMultiple(LevelHalf(i - 1));
    assert Pending(levels, i, ledger - 1, protocol);
    assert Pending(levels, i, ledger, protocol);
  }

  lemma HalfIsMultiple(h: nat)
    requires h > 0
    ensures Multiple(h, h)
  {
    assert Round(h, h) == h + Round(0, h);
  }

  /** In the visit of the levels from `i` down, every commit leaves out only what may be left out of
      the list it meets. */
  ghost predicate KeepsDown(levels: Levels, i: nat, ledger: U32, protocol: nat, shadows: seq<Bucket>)
    requires i < NUM_LEVELS && |shadows| == if i == 0 then 0 else 2 * (i - 1)
    decreases i
  {
    i == 0 ||
    (var below := if i == 1 then [] else shadows[..2 * (i - 2)];
     if LevelShouldSpill(ledger, i - 1) then
       var next := SpillInto(levels, i, ledger, protocol, shadows);
       CommitKeeps(levels, i, ledger) && (next.Ok? ==> KeepsDown(next.value, i - 1, ledger, protocol, below))
     else KeepsDown(levels, i - 1, ledger, protocol, below))
  }

  /** In that visit no commit fails, and after each of them every key's history is legal and the list
      still holds the ledger `m`. */
  ghost predicate KeptDown(levels: Levels, i: nat, ledger: U32, protocol: nat, shadows: seq<Bucket>, m: Ledger)
    requires i < NUM_LEVELS && |shadows| == if i == 0 then 0 else 2 * (i - 1)
    decreases i
  {
    i == 0 ||
    (var below := if i == 1 then [] else shadows[..2 * (i - 2)];
     if LevelShouldSpill(ledger, i - 1) then
       var next := SpillInto(levels, i, ledger, protocol, shadows);
       next.Ok? && KeysOk(next.value, m) && KeptDown(next.value, i - 1, ledger, protocol, below, m)
     else KeptDown(levels, i - 1, ledger, protocol, below, m))
  }

  /** All levels are visited, oldest first: the two say the same, and then the visit succeeds and keeps
      the invariant. */
  lemma {:induction false} SpillDownKeepsIff(levels: Levels, i: nat, ledger: U32, protocol: nat, m: Ledger)
    requires i < NUM_LEVELS && 0 < ledger && Mid(levels, i, ledger, protocol, m)
    ensures var shadows := Youngest(levels, if i == 0 then 0 else 2 * (i - 1));
      var r := SpillDown(levels, i, ledger, protocol, shadows);
      && (KeptDown(levels, i, ledger, protocol, shadows, m) <==> KeepsDown(levels, i, ledger, protocol, shadows))
      && (KeepsDown(levels, i, ledger, protocol, shadows) ==> r.Ok? && Mid(r.value, 0, ledger, protocol, m))
    decreases i
  {
    hide LevelShouldSpill, Mid, SpillInto, CommitKeeps, KeysOk;
    if i > 0 {
      var shadows, n := Youngest(levels, 2 * (i - 1)), if i == 1 then 0 else 2 * (i - 2);
      var levels' := levels;
      if LevelShouldSpill(ledger, i - 1) {
        SpillKeepsIff(levels, i, ledger, protocol, m);
        levels' := SpillInto(levels, i, ledger, protocol, shadows).value;
      } else {
        NoSpillKeeps(levels, i, ledger, protocol, m);
      }
      YoungestShrinks(levels, levels', 2 * (i - 1), n);
      assert Youngest(levels', n) == if i == 1 then [] else shadows[..2 * (i - 2)];
      if !LevelShouldSpill(ledger, i - 1) || CommitKeeps(levels, i, ledger) {
        SpillDownKeepsIff(levels', i - 1, ledger, protocol, m);
      }
    }
  }

  // ----- the newest level takes in the batch -----

  /** A batch of the ledger being closed: it creates only what does not exist. */
  ghost predicate BatchOk(batch: Bucket, protocol: nat, m: Ledger) {
    && WellFormed(batch) && batch.meta == MetaFor(protocol)
    && forall k :: At(batch, k).Init? ==> k !in m
  }

  function FrontLevels(levels: Levels, r: Bucket): Levels {
    levels[0 := Level(r, levels[0].snap, Clear)]
  }

  lemma FrontChain(levels: Levels, r: Bucket, batch: Bucket, k: LedgerKey)
    requires At(r, k) == Combine(At(levels[0].curr, k), At(batch, k))
    ensures var c := Chain(levels, k);
      Chain(FrontLevels(levels, r), k) == c[0 := Combine(c[0], At(batch, k))]
  {
    var c, d := Chain(levels, k), Chain(FrontLevels(levels, r), k);
    forall p | 0 < p < 22 ensures d[p] == c[p] {
      assert BucketAt(FrontLevels(levels, r), p) == BucketAt(levels, p);
    }
    assert d[0] == At(r, k) && c[0] == At(levels[0].curr, k);
  }

  lemma {:induction false} NoShadows(mode: MergeMode, k: LedgerKey, s: Slot)
    requires mode.shadows == [] && mode.keepDead
    ensures Emit(mode, k, s) == s
  {
  }

  lemma BatchCreates(levels: Levels, m: Ledger, batch: Bucket, protocol: nat, k: LedgerKey)
    requires KeysOk(levels, m) && BatchOk(batch, protocol, m)
    ensures Legal(Chain(levels, k)) && (At(batch, k).Init? ==> View(Chain(levels, k)).None?)
    ensures !Clash(At(levels[0].curr, k), At(batch, k))
  {
    FrontKeeps(Chain(levels, k), At(batch, k));
    assert Chain(levels, k)[0] == At(levels[0].curr, k);
  }

  /** The merge of the newest curr with the batch succeeds and keeps both parts' slots. */
  lemma FrontMerge(levels: Levels, m: Ledger, batch: Bucket, protocol: nat) returns (r: Bucket)
    requires KeysOk(levels, m) && BatchOk(batch, protocol, m) && BucketsOk(levels, protocol)
    ensures MergeBuckets(protocol, levels[0].curr, batch, [], true) == Ok(r)
    ensures WellFormed(r) && Version(r) <= protocol
    ensures protocol >= FIRST_PROTOCOL_SUPPORTING_INITENTRY ==> Version(r) == protocol
    ensures forall k :: At(r, k) == Combine(At(levels[0].curr, k), At(batch, k))
  {
    hide KeysOk, MergeEntries, Emit, Clash, Combine;
    var curr := levels[0].curr;
    assert curr == BucketAt(levels, 0);
    var version := MergeVersion(curr, batch, []);
    var mode := ModeFor(version, [], true);
    forall k ensures
      && (Find(curr.entries, k).Init? || Find(batch.entries, k).Init? ==> version >= FIRST_PROTOCOL_SUPPORTING_INITENTRY)
      && !Clash(Find(curr.entries, k), Find(batch.entries, k))
    {
      InitNeedsVersion(curr, k);
      InitNeedsVersion(batch, k);
      BatchCreates(levels, m, batch, protocol, k);
    }
    assert Mergeable(curr.entries, batch.entries, version);
    MergeOkIff(curr.entries, batch.entries, mode);
    r := MergeBuckets(protocol, curr, batch, [], true).value;
    MergeWellFormed(protocol, curr, batch, [], true);
    forall k ensures At(r, k) == Combine(At(curr, k), At(batch, k)) {
      MergeSlots(curr.entries, batch.entries, mode, k);
      NoShadows(mode, k, Combine(At(curr, k), At(batch, k)));
    }
  }

  lemma FrontKeys(levels: Levels, m: Ledger, batch: Bucket, protocol: nat, r: Bucket)
    requires KeysOk(levels, m) && BatchOk(batch, protocol, m)
    requires forall k :: At(r, k) == Combine(At(levels[0].curr, k), At(batch, k))
    ensures KeysOk(FrontLevels(levels, r), Apply(m, batch.entries))
  {
    hide Combine, Legal, View;
    forall k ensures
      && Legal(Chain(FrontLevels(levels, r), k))
      && View(Chain(FrontLevels(levels, r), k)) == Lookup(Apply(m, batch.entries), k)
    {
      BatchCreates(levels, m, batch, protocol, k);
      FrontChain(levels, r, batch, k);
      FrontKeeps(Chain(levels, k), At(batch, k));
      ApplyLookup(m, batch.entries, k);
    }
  }

  lemma FrontPendingLevel(levels: Levels, m: Ledger, batch: Bucket, protocol: nat, r: Bucket, j: nat, ledger: U32)
    requires KeysOk(levels, m) && BatchOk(batch, protocol, m) && 1 <= j < NUM_LEVELS
    requires forall k :: At(r, k) == Combine(At(levels[0].curr, k), At(batch, k))
    requires Pending(levels, j, ledger, protocol)
    ensures Pending(FrontLevels(levels, r), j, ledger, protocol)
  {
    hide Combine, Legal, View, PendingSlot, KeysOk, BatchOk, LevelHalf, ShouldMergeWithEmptyCurr, MergeBuckets;
    if ledger >= LevelHalf(j - 1) {
      var e, u := ShouldMergeWithEmptyCurr(ledger, j), levels[j].next.Resolve().value;
      forall k ensures PendingSlot(Chain(FrontLevels(levels, r), k), j, e, At(u, k)) {
        assert PendingSlot(Chain(levels, k), j, e, At(u, k));
        BatchCreates(levels, m, batch, protocol, k);
        FrontChain(levels, r, batch, k);
        FrontPending(Chain(levels, k), At(batch, k), j, e, At(u, k));
      }
    }
  }

  lemma FrontBuckets(levels: Levels, protocol: nat, r: Bucket, hole: nat)
    requires BucketsOk(levels, protocol) && VersionsAged(levels, hole) && (hole == 0 || hole == 22)
    requires WellFormed(r) && Version(r) <= protocol
    requires protocol >= FIRST_PROTOCOL_SUPPORTING_INITENTRY ==> Version(r) == protocol
    ensures BucketsOk(FrontLevels(levels, r), protocol) && VersionsAged(FrontLevels(levels, r), 22)
  {
    hide WellFormed;
    var levels' := FrontLevels(levels, r);
    forall p | 0 <= p < 22 ensures BucketAt(levels', p) == if p == 0 then r else BucketAt(levels, p) {
    }
  }

  lemma AbsorbKeeps(levels: Levels, ledger: U32, protocol: nat, m: Ledger, batch: Bucket)
    requires 0 < ledger && Mid(levels, 0, ledger, protocol, m) && BatchOk(batch, protocol, m)
    ensures var r := AbsorbFresh(levels, ledger, protocol, batch);
      r.Ok? && Inv(r.value, ledger, protocol, Apply(m, batch.entries))
  {
    hide KeysOk, BucketsOk, VersionsAged, BatchOk, Pending, MergeBuckets, LevelShouldSpill;
    var r := FrontMerge(levels, m, batch, protocol);
    FrontBuckets(levels, protocol, r, Hole(0, ledger));
    FrontKeys(levels, m, batch, protocol, r);
    forall j | 1 <= j < NUM_LEVELS ensures Pending(FrontLevels(levels, r), j, ledger, protocol) {
      FrontPendingLevel(levels, m, batch, protocol, r, j, ledger);
    }
    assert AbsorbFresh(levels, ledger, protocol, batch) == Ok(FrontLevels(levels, r));
  }
}
