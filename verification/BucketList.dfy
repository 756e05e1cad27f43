/** The bucket list as the program updates it. */
module BucketListObject {
  import opened Outcomes
  import opened Buckets
  import opened Lifecycle
  import opened BucketMerge
  import opened BucketFresh
  import opened Schedule
  import opened BucketLevels
  import opened BucketInvariant
  import opened BucketRuns
  import opened BucketAlgebra

  class BucketList {
    var levels: Levels

    constructor ()
      ensures levels == EmptyLevels && Inv(levels, 0, 0, map[])
    {
      levels := EmptyLevels;
      new;
      EmptyInv();
    }

    /** Close a ledger. The futures in `ready` happen to be finished by the end. On failure the
        merge that failed is reported, and the levels are left as far as they got.

        Called on a list that holds the ledger `m` after the ledgers before this one, it cannot
        fail, and the list then holds the ledger that the batch makes of `m`. */
    method AddBatch(currLedger: U32, protocol: nat, batch: Batch, ready: set<nat>, ghost protocol0: nat, ghost m: Ledger)
      returns (failure: Option<Failure>)
      requires currLedger > 0 && ValidKeys(batch)
      modifies this
      ensures match BucketLevels.AddBatch(old(levels), currLedger, protocol, Fresh(protocol, batch), ready)
        case Ok(ls) => failure.None? && levels == ls
        case Error(why) => failure == Some(why)
      ensures Inv(old(levels), currLedger - 1, protocol0, m) && KeepsClose(old(levels), currLedger, protocol) && protocol0 <= protocol
              && (UsesInit(protocol) ==> CreatesNew(batch, m)) ==>
        && failure.None? && Inv(levels, currLedger, protocol, Closed(m, batch))
        && ReadFrom(levels, 0) == Closed(m, batch)
    {
      hide BucketLevels.AddBatch, Inv, KeepsClose, ReadFrom, Fresh, Closed, SpillDown, AbsorbFresh, ResolveFrom, ValidKeys, UsesInit, CreatesNew;
      ClosingKeeps(levels, currLedger, protocol, batch, ready, protocol0, m);
      AddBatchParts(levels, currLedger, protocol, Fresh(protocol, batch), ready);
      failure := SpillLevels(currLedger, protocol);
      if failure.Some? { return; }
      var entries := ConvertToBucketEntry(UsesInit(protocol), batch);
      FreshIs(protocol, batch);
      failure := Absorb(currLedger, protocol, Bucket(MetaFor(protocol), entries));
      if failure.Some? { return; }
      failure := ResolveAnyReadyFutures(ready);
    }

    /** The newest level takes in the bucket of the ledger: for each key it then holds what the
        table makes of what it held and what the bucket says, and it fails exactly where the two
        clash or one is of a later protocol. Nothing else changes. */
    method Absorb(currLedger: U32, protocol: nat, fresh': Bucket) returns (failure: Option<Failure>)
      modifies this
      ensures failure.None? ==> levels == old(levels)[0 := Level(levels[0].curr, old(levels)[0].snap, Clear)]
      ensures WellFormed(old(levels)[0].curr) && WellFormed(fresh') ==>
        var held := old(levels)[0].curr;
        && (failure.None? <==>
              && Version(held) <= protocol && Version(fresh') <= protocol
              && forall k :: !Clash(At(held, k), At(fresh', k)))
        && (failure.None? ==>
              && WellFormed(levels[0].curr) && Version(levels[0].curr) == Max(Version(held), Version(fresh'))
              && forall k :: At(levels[0].curr, k) == Combine(At(held, k), At(fresh', k)))
      ensures match AbsorbFresh(old(levels), currLedger, protocol, fresh')
        case Ok(ls) => failure.None? && levels == ls
        case Error(why) => failure == Some(why)
    {
      hide MergeBuckets, WellFormed, Version, At, Clash, Combine;
      AbsorbIs(levels, currLedger, protocol, fresh');
      levels := levels[0 := levels[0].Prepared(0, currLedger, protocol, fresh', [])];
      var first := levels[0].Committed();
      if first.Error? { return Some(first.why); }
      levels := levels[0 := first.value];
      failure := None;
    }

    /** Visit the levels oldest first; each level above a visited one that is due snaps, and the
        visited level commits its pending merge and starts the next. */
    method SpillLevels(currLedger: U32, protocol: nat) returns (failure: Option<Failure>)
      requires currLedger > 0
      modifies this
      ensures match SpillDown(old(levels), LAST_LEVEL, currLedger, protocol, Youngest(old(levels), 18))
        case Ok(ls) => failure.None? && levels == ls
        case Error(why) => failure == Some(why)
    {
      hide LevelShouldSpill, SpillDown, Level.Prepared, Level.Committed, Youngest;
      var shadows := CollectShadows();
      shadows := shadows[..|shadows| - 2];
      ghost var goal := SpillDown(levels, LAST_LEVEL, currLedger, protocol, Youngest(levels, 18));
      assert shadows[..18] == Youngest(levels, 18) by { YoungestPrefix(levels, 22, 18); YoungestPrefix(levels, 22, 20); }
      var i := LAST_LEVEL;
      while i != 0
        invariant i <= LAST_LEVEL && |shadows| == 2 * i
        invariant SpillDown(levels, i, currLedger, protocol, if i == 0 then [] else shadows[..2 * (i - 1)]) == goal
      {
        ghost var before := levels;
        shadows := shadows[..|shadows| - 2];
        SpillDownVisits(levels, i, currLedger, protocol, shadows);
        if LevelShouldSpill(currLedger, i - 1) {
          levels := levels[i - 1 := levels[i - 1].Snapped()];
          var snap := levels[i - 1].snap;
          var level := levels[i].Committed();
          if level.Error? { return Some(level.why); }
          levels := levels[i := level.value];
          levels := levels[i := levels[i].Prepared(i, currLedger, protocol, snap, shadows)];
          assert levels == before[i - 1 := before[i - 1].Snapped()][i := level.value.Prepared(i, currLedger, protocol, snap, shadows)];
        }
        i := i - 1;
      }
      AllVisited(levels, currLedger, protocol);
      failure := None;
    }

    /** The currs and snaps of all levels, newest first. */
    method CollectShadows() returns (shadows: seq<Bucket>)
      ensures shadows == Youngest(levels, 22)
    {
      shadows := [];
      for j := 0 to NUM_LEVELS
        invariant shadows == Youngest(levels, 2 * j)
      {
        shadows := shadows + [levels[j].curr, levels[j].snap];
      }
    }

    /** Replace finished merges by their output. */
    method ResolveAnyReadyFutures(ready: set<nat>) returns (failure: Option<Failure>)
      modifies this
      ensures match ResolveFrom(old(levels), 0, ready)
        case Ok(ls) => failure.None? && levels == ls
        case Error(why) => failure == Some(why)
    {
      hide MergeBuckets;
      for i := 0 to NUM_LEVELS
        invariant ResolveFrom(levels, i, ready) == ResolveFrom(old(levels), 0, ready)
      {
        if levels[i].next.LiveInputs? && i in ready {
          var b := levels[i].next.Resolve();
          if b.Error? { return Some(b.why); }
          levels := levels[i := levels[i].(next := LiveOutput(b.value))];
        }
      }
      failure := None;
    }

    /** Make the merges of a list that was saved after `ledger` run again. On a list saved from
        one in order (`saved`), every level gets back a merge with the inputs and the output it
        had, and levels without a merge get none. */
    method RestartMerges(maxVersion: nat, ledger: U32, ghost saved: Levels, ghost cleared: set<nat>, ghost protocol: nat, ghost m: Ledger)
      returns (failure: Option<Failure>)
      modifies this
      ensures match RestartFrom(old(levels), 0, maxVersion, ledger)
        case Ok(ls) => failure.None? && levels == ls
        case Error(why) => failure == Some(why)
      ensures Inv(saved, ledger, protocol, m) && protocol <= maxVersion && old(levels) == Saved(saved, cleared) ==>
        failure.None? && SameLevels(saved, levels) && AllInputsOk(levels, ledger, protocol) && Inv(levels, ledger, protocol, m)
    {
      hide LevelShouldSpill, ShouldMergeWithEmptyCurr, MergeBuckets, Inv, SameLevels, AllInputsOk, Saved, Mask, LevelHalf;
      if Inv(saved, ledger, protocol, m) && protocol <= maxVersion && levels == Saved(saved, cleared) {
        RestartKeeps(saved, cleared, maxVersion, ledger, protocol, m);
      }
      var i := 0;
      while i < NUM_LEVELS
        invariant i <= NUM_LEVELS
        invariant RestartFrom(levels, i, maxVersion, ledger) == RestartFrom(old(levels), 0, maxVersion, ledger)
      {
        if levels[i].next.HasHashes() {
          levels := levels[i := levels[i].(next := MadeLive(levels[i].next, maxVersion, i))];
        } else if levels[i].next.Clear? && i > 0 {
          var snap := levels[i - 1].snap;
          if snap == EmptyBucket { return None; }
          if Version(snap) < FIRST_PROTOCOL_SHADOWS_REMOVED { return Some(InvalidRestart); }
          LevelFacts(i - 1);
          var start := Mask(ledger, LevelHalf(i - 1));
          levels := levels[i := levels[i].Prepared(i, start, Version(snap), snap, [])];
        }
        i := i + 1;
      }
      failure := None;
    }
  }

  lemma AbsorbIs(levels: Levels, ledger: U32, protocol: nat, batch: Bucket)
    ensures var r, held := AbsorbFresh(levels, ledger, protocol, batch), levels[0].curr;
      && (r.Ok? ==> r.value == levels[0 := Level(r.value[0].curr, levels[0].snap, Clear)])
      && (WellFormed(held) && WellFormed(batch) ==>
            && (r.Ok? <==>
                  && Version(held) <= protocol && Version(batch) <= protocol
                  && forall k :: !Clash(At(held, k), At(batch, k)))
            && (r.Ok? ==>
                  && WellFormed(r.value[0].curr) && Version(r.value[0].curr) == Max(Version(held), Version(batch))
                  && forall k :: At(r.value[0].curr, k) == Combine(At(held, k), At(batch, k))))
  {
    hide MergeEntries, WellFormed, At, Clash, Combine;
    var held := levels[0].curr;
    if WellFormed(held) && WellFormed(batch) && Version(held) <= protocol && Version(batch) <= protocol {
      JoinIs(protocol, held, batch);
    }
  }

  lemma YoungestPrefix(levels: Levels, n: nat, n': nat)
    requires n' <= n <= 22
    ensures Youngest(levels, n)[..n'] == Youngest(levels, n')
  {
  }

  /** One turn of the visit. */
  lemma SpillDownVisits(levels: Levels, i: nat, ledger: U32, protocol: nat, shadows: seq<Bucket>)
    requires 0 < i < NUM_LEVELS && |shadows| == 2 * (i - 1)
    ensures var turn := if LevelShouldSpill(ledger, i - 1) then SpillInto(levels, i, ledger, protocol, shadows) else Ok(levels);
      SpillDown(levels, i, ledger, protocol, shadows) ==
      match turn
      case Ok(next) => SpillDown(next, i - 1, ledger, protocol, if i == 1 then [] else shadows[..2 * (i - 2)])
      case Error(why) => Error(why)
  {
    hide LevelShouldSpill, SpillInto;
  }

  lemma AllVisited(levels: Levels, ledger: U32, protocol: nat)
    ensures SpillDown(levels, 0, ledger, protocol, []) == Ok(levels)
  {
  }

  /** Closing a ledger is the visit, the absorption of the batch, and resolution. */
  lemma AddBatchParts(levels: Levels, ledger: U32, protocol: nat, batch: Bucket, ready: set<nat>)
    ensures var r, spilled := BucketLevels.AddBatch(levels, ledger, protocol, batch, ready), SpillDown(levels, LAST_LEVEL, ledger, protocol, Youngest(levels, 18));
      && (spilled.Error? ==> r == Error(spilled.why))
      && (spilled.Ok? ==>
            var absorbed := AbsorbFresh(spilled.value, ledger, protocol, batch);
            && (absorbed.Error? ==> r == Error(absorbed.why))
            && (absorbed.Ok? ==> r == ResolveFrom(absorbed.value, 0, ready)))
  {
    hide SpillDown, AbsorbFresh, ResolveFrom;
  }

  lemma ClosingKeeps(levels: Levels, ledger: U32, protocol: nat, batch: Batch, ready: set<nat>, protocol0: nat, m: Ledger)
    requires ledger > 0 && ValidKeys(batch)
    ensures Inv(levels, ledger - 1, protocol0, m) && KeepsClose(levels, ledger, protocol) && protocol0 <= protocol
            && (UsesInit(protocol) ==> CreatesNew(batch, m)) ==>
      var r := BucketLevels.AddBatch(levels, ledger, protocol, Fresh(protocol, batch), ready);
      r.Ok? && Inv(r.value, ledger, protocol, Closed(m, batch)) && ReadFrom(r.value, 0) == Closed(m, batch)
  {
    hide BucketLevels.AddBatch, Inv, KeepsClose, ReadFrom, Fresh, Closed, ValidKeys, UsesInit, CreatesNew;
    if Inv(levels, ledger - 1, protocol0, m) && KeepsClose(levels, ledger, protocol) && protocol0 <= protocol
       && (UsesInit(protocol) ==> CreatesNew(batch, m)) {
      FreshIsOk(protocol, batch, m);
      FreshApplies(protocol, batch, m);
      AddBatchKeepsIff(levels, ledger, protocol0, protocol, m, Fresh(protocol, batch), ready);
      InvReads(BucketLevels.AddBatch(levels, ledger, protocol, Fresh(protocol, batch), ready).value, ledger, protocol, Closed(m, batch));
    }
  }

  lemma FreshIs(protocol: nat, batch: Batch)
    ensures Fresh(protocol, batch) == Bucket(MetaFor(protocol), SortEntries(Collected(UsesInit(protocol), batch)))
  {
  }
}
