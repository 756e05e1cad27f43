/** Upgrades through protocols 10, 11 and 12: how long protocol 11 has to last for merges of older
    buckets to keep their tombstones. */
module BucketUpgrade {
  import opened Outcomes
  import opened Buckets
  import opened BucketMerge
  import opened BucketFresh
  import opened Bits
  import opened Schedule
  import opened LedgerSpans
  import opened BucketLevels
  import opened BucketShape
  import opened BucketInvariant
  import opened BucketClosing
  import opened BucketRuns
  import opened BucketSafety
  import opened BucketTheorems

  /** A bucket whose newest ledger is after `since` is from protocol 11 on, one whose newest ledger is
      not after `till` from before protocol 12. */
  predicate DatedBucket(b: Bucket, top: nat, since: nat, till: nat) {
    && (top > since ==> Version(b) >= FIRST_PROTOCOL_SUPPORTING_INITENTRY)
    && (top <= till ==> Version(b) < FIRST_PROTOCOL_SHADOWS_REMOVED)
  }

  ghost predicate Dated(levels: Levels, ledger: nat, since: nat, till: nat) {
    forall p :: 0 <= p < 22 ==> DatedBucket(BucketAt(levels, p), PositionTop(ledger, p), since, till)
  }

  lemma DatedAt(levels: Levels, ledger: nat, since: nat, till: nat, i: nat)
    requires Dated(levels, ledger, since, till) && i < NUM_LEVELS
    ensures DatedBucket(levels[i].curr, CurrTop(ledger, i), since, till)
    ensures DatedBucket(levels[i].snap, SnapTop(ledger, i), since, till)
  {
    hide CurrTop, SnapTop, DatedBucket;
    assert PositionTop(ledger, 2 * i) == CurrTop(ledger, i) && PositionTop(ledger, 2 * i + 1) == SnapTop(ledger, i);
    PositionsOf(levels, i);
  }

  lemma AllDated(levels: Levels, ledger: nat, since: nat, till: nat)
    requires forall i :: 0 <= i < NUM_LEVELS ==>
      DatedBucket(levels[i].curr, CurrTop(ledger, i), since, till) && DatedBucket(levels[i].snap, SnapTop(ledger, i), since, till)
    ensures Dated(levels, ledger, since, till)
  {
    hide CurrTop, SnapTop, DatedBucket;
    forall p | 0 <= p < 22 ensures DatedBucket(BucketAt(levels, p), PositionTop(ledger, p), since, till) {
      assert p / 2 < NUM_LEVELS;
    }
  }

  lemma EmptyDated(since: nat, till: nat)
    ensures DatedBucket(EmptyBucket, 0, since, till)
  {
  }

  // ----- closing a ledger -----

  /** A commit is as old as the snap above that went into it. */
  lemma CommitsDated(levels: Levels, i: nat, ledger: U32, protocol: nat, m: Ledger, since: nat, till: nat)
    requires 1 <= i < NUM_LEVELS && 0 < ledger && Inv(levels, ledger - 1, protocol, m)
    requires Dated(levels, ledger - 1, since, till) && LevelShouldSpill(ledger, i - 1)
    ensures DatedBucket(Commits(levels, i, ledger), CurrTop(ledger, i), since, till)
  {
    hide BucketsOk, VersionsAged, KeysOk, Dated, LevelHalf, LevelShouldSpill, ShouldMergeWithEmptyCurr, InputsOk, MergeBuckets, CurrTop, SlotsPending, Multiple, Version;
    assert Pending(levels, i, ledger - 1, protocol);
    SpillIff(ledger, i - 1);
    TopsStep(ledger, i - 1);
    DatedAt(levels, ledger - 1, since, till, i - 1);
    if ledger - 1 < LevelHalf(i - 1) {
      assert SnapTop(ledger - 1, i - 1) == 0;
      EmptyDated(since, till);
    }
  }

  lemma CurrDated(levels: Levels, i: nat, ledger: U32, protocol: nat, m: Ledger, since: nat, till: nat)
    requires 1 <= i < NUM_LEVELS && 0 < ledger && Inv(levels, ledger - 1, protocol, m)
    requires Dated(levels, ledger - 1, since, till)
    ensures DatedBucket(CurrAfter(levels, i, ledger), CurrTop(ledger, i), since, till)
  {
    hide Inv, Dated, LevelHalf, LevelShouldSpill, CurrTop, SnapTop, Commits, Multiple, DatedBucket;
    SpillIff(ledger, i - 1);
    if LevelShouldSpill(ledger, i - 1) {
      CommitsDated(levels, i, ledger, protocol, m, since, till);
    } else {
      TopsStep(ledger, i - 1);
      if LevelShouldSpill(ledger, i) { SpillDownward(ledger, i); }
      DatedAt(levels, ledger - 1, since, till, i);
    }
  }

  lemma SnapDated(levels: Levels, i: nat, ledger: U32, protocol: nat, m: Ledger, since: nat, till: nat)
    requires i < NUM_LEVELS && 0 < ledger && Inv(levels, ledger - 1, protocol, m) && Dated(levels, ledger - 1, since, till)
    ensures DatedBucket(SnapAfter(levels, i, ledger), SnapTop(ledger, i), since, till)
  {
    hide Inv, Dated, LevelHalf, LevelShouldSpill, CurrTop, SnapTop, Multiple, DatedBucket;
    SpillIff(ledger, i);
    TopZero(ledger);
    TopZero(ledger - 1);
    DatedAt(levels, ledger - 1, since, till, i);
    if i < LAST_LEVEL { TopsStep(ledger, i); }
  }

  lemma DatedStep(levels: Levels, ledger: U32, protocol0: nat, protocol: nat, m: Ledger, batch: Bucket, ready: set<nat>, since: nat, till: nat)
    requires 0 < ledger && Inv(levels, ledger - 1, protocol0, m) && Dated(levels, ledger - 1, since, till)
    requires AddBatch(levels, ledger, protocol, batch, ready).Ok? && batch.meta == MetaFor(protocol)
    requires ledger > since ==> protocol >= FIRST_PROTOCOL_SUPPORTING_INITENTRY
    requires ledger <= till ==> protocol < FIRST_PROTOCOL_SHADOWS_REMOVED
    ensures Dated(AddBatch(levels, ledger, protocol, batch, ready).value, ledger, since, till)
  {
    hide Inv, Dated, AddBatch, CurrTop, SnapTop, CurrAfter, SnapAfter, LeftCurr, MergeEntries, DatedBucket;
    var r := AddBatch(levels, ledger, protocol, batch, ready).value;
    forall i | 0 <= i < NUM_LEVELS
      ensures DatedBucket(r[i].curr, CurrTop(ledger, i), since, till) && DatedBucket(r[i].snap, SnapTop(ledger, i), since, till)
    {
      AddBatchShape(levels, ledger, protocol, batch, ready, i);
      SnapDated(levels, i, ledger, protocol0, m, since, till);
      if i > 0 {
        CurrDated(levels, i, ledger, protocol0, m, since, till);
      } else {
        TopZero(ledger);
        FrontDated(protocol, LeftCurr(levels, 0, ledger), batch, r[0].curr, ledger, since, till);
      }
    }
    AllDated(r, ledger, since, till);
  }

  lemma FrontDated(protocol: nat, left: Bucket, batch: Bucket, r: Bucket, ledger: nat, since: nat, till: nat)
    requires MergeBuckets(protocol, left, batch, [], true) == Ok(r) && batch.meta == MetaFor(protocol)
    requires ledger > since ==> protocol >= FIRST_PROTOCOL_SUPPORTING_INITENTRY
    requires ledger <= till ==> protocol < FIRST_PROTOCOL_SHADOWS_REMOVED
    ensures DatedBucket(r, ledger, since, till)
  {
    hide MergeEntries;
  }

  // ----- runs -----

  /** Ledgers after `since` close at protocol 11 or later, those up to `till` before protocol 12. */
  predicate Era(es: seq<Event>, since: nat, till: nat) {
    es == [] ||
    (Era(es[..|es| - 1], since, till) &&
     (es[|es| - 1].CloseLedger? ==>
        && (LedgerCount(es) > since ==> es[|es| - 1].protocol >= FIRST_PROTOCOL_SUPPORTING_INITENTRY)
        && (LedgerCount(es) <= till ==> es[|es| - 1].protocol < FIRST_PROTOCOL_SHADOWS_REMOVED)))
  }

  lemma {:induction false} EraProtocol(es: seq<Event>, since: nat, till: nat)
    requires Era(es, since, till) && LedgerCount(es) <= till
    ensures ProtocolAfter(es) < FIRST_PROTOCOL_SHADOWS_REMOVED
  {
    if es != [] { EraProtocol(es[..|es| - 1], since, till); }
  }

  /** The version of every bucket fits the newest ledger it spans. */
  lemma {:induction false} RunDated(es: seq<Event>, since: nat, till: nat)
    requires LedgerCount(es) < TWO_32 && ValidRun(es) && KeepsRun(es) && Era(es, since, till)
    ensures StateAfter(es).Ok? && Dated(StateAfter(es).value, LedgerCount(es), since, till)
  {
    hide Inv, Dated, AddBatch, RestartFrom, Saved, KeepsClose, SameLevels, AllInputsOk, MetaFor, SortEntries, Collected;
    RunKeeps(es);
    if es == [] {
      NothingDated(since, till);
    } else {
      var before, e := es[..|es| - 1], es[|es| - 1];
      RunDated(before, since, till);
      RunKeeps(before);
      var levels := StateAfter(before).value;
      if e.CloseLedger? {
        DatedStep(levels, LedgerCount(es), ProtocolAfter(before), e.protocol, LedgerAfter(before), Fresh(e.protocol, e.batch), e.ready, since, till);
      } else {
        RestartKeeps(levels, e.cleared, e.maxVersion, LedgerCount(es), ProtocolAfter(before), LedgerAfter(before));
        SameDated(levels, StateAfter(es).value, LedgerCount(es), since, till);
      }
    }
  }

  lemma NothingDated(since: nat, till: nat)
    ensures Dated(EmptyLevels, 0, since, till)
  {
    hide CurrTop, SnapTop;
  }

  lemma SameDated(x: Levels, y: Levels, ledger: nat, since: nat, till: nat)
    requires SameLevels(x, y) && Dated(x, ledger, since, till)
    ensures Dated(y, ledger, since, till)
  {
    hide CurrTop, SnapTop, PositionTop, DatedBucket, SameLevels;
    forall p | 0 <= p < 22 ensures BucketAt(x, p) == BucketAt(y, p) { SameBuckets(x, y, p); }
  }

  // ----- merges in such a list -----

  /** No bucket on levels 0 to 8 spans more than half the size of level 8. */
  lemma SpanWithin(ledger: nat, p: nat)
    requires p < 18
    ensures PositionTop(ledger, p) - PositionTop(ledger, p + 1) <= LevelHalf(8)
  {
    hide LevelHalf, CurrTop, SnapTop;
    var i := p / 2;
    SizesWithin(ledger, i);
    if i < 8 { HalvesGrow(i, 8); }
  }

  /** If position `q` and what is older ends before the era, a newer position ends within it. */
  lemma {:induction false} EraPosition(ledger: nat, since: nat, till: nat, q: nat) returns (p: nat)
    requires q <= 18 && PositionTop(ledger, q) <= since && since + LevelHalf(8) <= till < ledger
    ensures p < q && since < PositionTop(ledger, p) <= till
    decreases q
  {
    hide CurrTop, SnapTop, LevelHalf;
    TopZero(ledger);
    SpanWithin(ledger, q - 1);
    if PositionTop(ledger, q - 1) > since {
      p := q - 1;
    } else {
      p := EraPosition(ledger, since, till, q - 1);
    }
  }

  /** Merges from protocol 11 on keep all tombstones. */
  lemma KeepingIsSafe(base: Bucket, above: Bucket, shadows: seq<Bucket>)
    requires MergeVersion(base, above, shadows) >= FIRST_PROTOCOL_SUPPORTING_INITENTRY
    ensures SafeMerge(base, above, shadows)
  {
    hide MergeVersion;
  }

  /** Once a long enough era is over, every merge has an input or a shadow from it, or a later input. */
  lemma DatedVersion(levels: Levels, ledger: nat, since: nat, till: nat, i: nat, base: Bucket)
    requires 1 <= i < NUM_LEVELS && Dated(levels, ledger, since, till) && since + LevelHalf(8) <= till < ledger
    ensures var above := levels[i - 1].curr;
      MergeVersion(base, above, UsedShadows(above, Youngest(levels, 2 * i - 2))) >= FIRST_PROTOCOL_SUPPORTING_INITENTRY
  {
    hide MergeVersion, PositionTop, LevelHalf, BucketAt, Version, Dated;
    var above, shadows := levels[i - 1].curr, Youngest(levels, 2 * i - 2);
    MergeVersionBounds(base, above, UsedShadows(above, shadows));
    PositionsOf(levels, i - 1);
    if Version(above) < FIRST_PROTOCOL_SUPPORTING_INITENTRY {
      DatedPosition(levels, ledger, since, till, 2 * i - 2);
      var p := EraPosition(ledger, since, till, 2 * i - 2);
      DatedPosition(levels, ledger, since, till, p);
      assert shadows[p] == BucketAt(levels, p);
    }
  }

  lemma DatedPosition(levels: Levels, ledger: nat, since: nat, till: nat, p: nat)
    requires Dated(levels, ledger, since, till) && p < 22
    ensures DatedBucket(BucketAt(levels, p), PositionTop(ledger, p), since, till)
  {
    hide DatedBucket, BucketAt, PositionTop;
  }

  lemma DatedIsSafe(levels: Levels, ledger: U32, since: nat, till: nat)
    requires 0 < ledger && Dated(levels, ledger - 1, since, till) && since + LevelHalf(8) <= till < ledger - 1
    ensures SafeClose(levels, ledger)
  {
    hide LevelShouldSpill, StartBase, SafeMerge, MergeVersion, Dated, LevelHalf, UsedShadows, Youngest;
    forall i | 1 <= i < NUM_LEVELS ensures SafeStart(levels, i, ledger) {
      var above := levels[i - 1].curr;
      DatedVersion(levels, ledger - 1, since, till, i, StartBase(levels, i, ledger));
      KeepingIsSafe(StartBase(levels, i, ledger), above, UsedShadows(above, Youngest(levels, 2 * i - 2)));
    }
  }

  lemma HalfOf8()
    ensures LevelHalf(8) == 131072
  {
    hide LevelHalf;
    LevelFacts(0);
    LevelFacts(1);
    LevelFacts(2);
    LevelFacts(3);
    LevelFacts(4);
    LevelFacts(5);
    LevelFacts(6);
    LevelFacts(7);
    LevelFacts(8);
  }

  /** A run through older protocols, protocol 11 and later ones is safe, and the list is the ledger, if
      protocol 11 lasts for 131072 ledgers. */
  lemma {:induction false} LongUpgradeIsSafe(es: seq<Event>, since: nat, till: nat)
    requires LedgerCount(es) < TWO_32 && ValidRun(es) && Era(es, since, till) && since + 131072 <= till
    ensures SafeRun(es)
    ensures StateAfter(es).Ok? && ReadFrom(StateAfter(es).value, 0) == LedgerAfter(es)
  {
    hide Inv, Dated, AddBatch, RestartFrom, Saved, SafeClose, KeepsClose, ReadFrom, AllSteady, LevelHalf, StateAfter;
    if es != [] {
      var before, e := es[..|es| - 1], es[|es| - 1];
      LongUpgradeIsSafe(before, since, till);
      if e.CloseLedger? {
        SafeRunKeeps(before);
        RunKeeps(before);
        HalfOf8();
        if LedgerCount(before) <= till {
          EraProtocol(before, since, till);
          OldIsSafe(StateAfter(before).value, LedgerCount(es), ProtocolAfter(before), LedgerAfter(before));
        } else {
          RunDated(before, since, till);
          DatedIsSafe(StateAfter(before).value, LedgerCount(es), since, till);
        }
      }
    }
    SafeRunKeeps(es);
    LedgerRefinement(es);
  }
}
