/** Where every bucket goes when a ledger closes. */
module BucketShape {
  import opened Outcomes
  import opened Buckets
  import opened BucketMerge
  import opened Schedule
  import opened BucketLevels

  /** The curr of level `j` once it may have snapped. */
  function LeftCurr(levels: Levels, j: nat, ledger: U32): Bucket
    requires j < NUM_LEVELS
  {
    if LevelShouldSpill(ledger, j) then EmptyBucket else levels[j].curr
  }

  function SnapAfter(levels: Levels, j: nat, ledger: U32): Bucket
    requires j < NUM_LEVELS
  {
    if LevelShouldSpill(ledger, j) then levels[j].curr else levels[j].snap
  }

  /** What level `j` commits when the level above it spills. */
  function Commits(levels: Levels, j: nat, ledger: U32): Bucket
    requires j < NUM_LEVELS
  {
    var f := levels[j].next;
    if f.IsLive() && f.Resolve().Ok? then f.Resolve().value else LeftCurr(levels, j, ledger)
  }

  function CurrAfter(levels: Levels, j: nat, ledger: U32): Bucket
    requires j < NUM_LEVELS
  {
    if j > 0 && LevelShouldSpill(ledger, j - 1) then Commits(levels, j, ledger) else LeftCurr(levels, j, ledger)
  }

  /** The curr of level `i` after its turn, when it has already snapped if it was due. */
  function VisitedCurr(levels: Levels, i: nat, ledger: U32): Bucket
    requires i < NUM_LEVELS
  {
    var f := levels[i].next;
    if i > 0 && LevelShouldSpill(ledger, i - 1) && f.IsLive() && f.Resolve().Ok? then f.Resolve().value else levels[i].curr
  }

  /** After the levels from `i` down have been visited. */
  lemma {:induction false} SpillDownShape(levels: Levels, i: nat, ledger: U32, protocol: nat, shadows: seq<Bucket>, j: nat)
    requires i < NUM_LEVELS && |shadows| == (if i == 0 then 0 else 2 * (i - 1)) && j < NUM_LEVELS
    requires SpillDown(levels, i, ledger, protocol, shadows).Ok?
    ensures var r := SpillDown(levels, i, ledger, protocol, shadows).value;
      && (j > i ==> r[j].curr == levels[j].curr && r[j].snap == levels[j].snap)
      && (j == i ==> r[j].curr == VisitedCurr(levels, j, ledger) && r[j].snap == levels[j].snap)
      && (j < i ==> r[j].curr == CurrAfter(levels, j, ledger) && r[j].snap == SnapAfter(levels, j, ledger))
    decreases i
  {
    hide LevelShouldSpill, MergeBuckets, ShouldMergeWithEmptyCurr;
    if i > 0 {
      var below := if i == 1 then [] else shadows[..2 * (i - 2)];
      if LevelShouldSpill(ledger, i - 1) {
        var next := SpillInto(levels, i, ledger, protocol, shadows).value;
        SpillDownShape(next, i - 1, ledger, protocol, below, j);
      } else {
        SpillDownShape(levels, i - 1, ledger, protocol, below, j);
      }
    }
  }

  lemma {:induction false} ResolveShape(levels: Levels, i: nat, ready: set<nat>, j: nat)
    requires i <= NUM_LEVELS && j < NUM_LEVELS && ResolveFrom(levels, i, ready).Ok?
    ensures var r := ResolveFrom(levels, i, ready).value; r[j].curr == levels[j].curr && r[j].snap == levels[j].snap
    decreases NUM_LEVELS - i
  {
    hide MergeBuckets;
    if i < NUM_LEVELS {
      if levels[i].next.LiveInputs? && i in ready {
        ResolveShape(levels[i := levels[i].(next := LiveOutput(levels[i].next.Resolve().value))], i + 1, ready, j);
      } else {
        ResolveShape(levels, i + 1, ready, j);
      }
    }
  }

  /** Closing a ledger: snaps take over spilled currs, currs take over finished merges, and the
      newest curr takes in the batch. */
  lemma AddBatchShape(levels: Levels, ledger: U32, protocol: nat, batch: Bucket, ready: set<nat>, j: nat)
    requires j < NUM_LEVELS && AddBatch(levels, ledger, protocol, batch, ready).Ok?
    ensures var r := AddBatch(levels, ledger, protocol, batch, ready).value;
      && r[j].snap == SnapAfter(levels, j, ledger)
      && (j > 0 ==> r[j].curr == CurrAfter(levels, j, ledger))
      && (j == 0 ==> MergeBuckets(protocol, LeftCurr(levels, 0, ledger), batch, [], true) == Ok(r[0].curr))
  {
    hide SpillDown, ResolveFrom, MergeBuckets, LevelShouldSpill;
    SpillIff(ledger, LAST_LEVEL);
    SpillDownShape(levels, LAST_LEVEL, ledger, protocol, Youngest(levels, 18), j);
    var spilled := SpillDown(levels, LAST_LEVEL, ledger, protocol, Youngest(levels, 18)).value;
    var absorbed := AbsorbFresh(spilled, ledger, protocol, batch).value;
    ResolveShape(absorbed, 0, ready, j);
  }

  // ----- the merges a close starts -----

  /** The merge that level `j` starts, over the given shadows. */
  function Started(levels: Levels, j: nat, ledger: U32, protocol: nat, shadows: seq<Bucket>): FutureBucket
    requires 1 <= j < NUM_LEVELS
  {
    LiveInputs(if ShouldMergeWithEmptyCurr(ledger, j) then EmptyBucket else Commits(levels, j, ledger), levels[j - 1].curr,
               if Version(levels[j - 1].curr) >= 12 then [] else shadows, protocol, j < 10)
  }

  /** What one spill changes of the merges, and of what the younger levels will start. */
  lemma SpillStarts(levels: Levels, i: nat, ledger: U32, protocol: nat, shadows: seq<Bucket>, j: nat)
    requires 1 <= i < NUM_LEVELS && 1 <= j < NUM_LEVELS && LevelShouldSpill(ledger, i - 1)
    requires LevelShouldSpill(ledger, i) ==> levels[i].curr == EmptyBucket
    requires SpillInto(levels, i, ledger, protocol, shadows).Ok?
    ensures var r := SpillInto(levels, i, ledger, protocol, shadows).value;
      && r[i - 1].curr == EmptyBucket
      && (j == i ==> r[j].next == Started(levels, j, ledger, protocol, shadows))
      && (j != i ==> r[j].next == levels[j].next)
      && (j < i ==> forall sh :: Started(r, j, ledger, protocol, sh) == Started(levels, j, ledger, protocol, sh))
  {
    hide LevelShouldSpill, MergeBuckets, ShouldMergeWithEmptyCurr, Version;
  }

  lemma {:induction false} SpillDownStarts(levels: Levels, i: nat, ledger: U32, protocol: nat, shadows: seq<Bucket>, j: nat)
    requires i < NUM_LEVELS && |shadows| == (if i == 0 then 0 else 2 * (i - 1)) && 1 <= j < NUM_LEVELS
    requires LevelShouldSpill(ledger, i) ==> levels[i].curr == EmptyBucket
    requires SpillDown(levels, i, ledger, protocol, shadows).Ok?
    ensures var r := SpillDown(levels, i, ledger, protocol, shadows).value;
      r[j].next == if j <= i && LevelShouldSpill(ledger, j - 1) then Started(levels, j, ledger, protocol, shadows[..2 * (j - 1)])
                   else levels[j].next
    decreases i
  {
    hide LevelShouldSpill, SpillInto, Started;
    if i > 0 {
      var below := if i == 1 then [] else shadows[..2 * (i - 2)];
      if j <= i - 1 { assert below[..2 * (j - 1)] == shadows[..2 * (j - 1)]; }
      if LevelShouldSpill(ledger, i - 1) {
        SpillStarts(levels, i, ledger, protocol, shadows, j);
        assert shadows[..2 * (i - 1)] == shadows;
        SpillDownStarts(SpillInto(levels, i, ledger, protocol, shadows).value, i - 1, ledger, protocol, below, j);
      } else {
        SpillDownStarts(levels, i - 1, ledger, protocol, below, j);
      }
    }
  }

  lemma {:induction false} ResolveStarts(levels: Levels, i: nat, ready: set<nat>, j: nat)
    requires i <= NUM_LEVELS && j < NUM_LEVELS && ResolveFrom(levels, i, ready).Ok?
    ensures var f, g := levels[j].next, ResolveFrom(levels, i, ready).value[j].next;
      f.IsLive() == g.IsLive() && (f.IsLive() ==> f.Resolve() == g.Resolve()) && (!f.IsLive() ==> f == g)
    decreases NUM_LEVELS - i
  {
    hide MergeBuckets;
    if i < NUM_LEVELS {
      if levels[i].next.LiveInputs? && i in ready {
        ResolveStarts(levels[i := levels[i].(next := LiveOutput(levels[i].next.Resolve().value))], i + 1, ready, j);
      } else {
        ResolveStarts(levels, i + 1, ready, j);
      }
    }
  }

  /** Closing a ledger: a level whose younger neighbour spills starts to merge the spilled curr into
      what it commits, or into nothing if it will itself spill next; over all buckets of the levels
      younger than those two, as they were, unless the spilled curr is from protocol 12 on; and with
      tombstones kept except on the last level. Other levels keep their merges. */
  lemma AddBatchStarts(levels: Levels, ledger: U32, protocol: nat, batch: Bucket, ready: set<nat>, i: nat)
    requires 1 <= i < NUM_LEVELS && AddBatch(levels, ledger, protocol, batch, ready).Ok?
    ensures var f, above := AddBatch(levels, ledger, protocol, batch, ready).value[i].next, levels[i - 1].curr;
      var base := if ShouldMergeWithEmptyCurr(ledger, i) then EmptyBucket else Commits(levels, i, ledger);
      var shadows := if Version(above) >= 12 then [] else Youngest(levels, 2 * (i - 1));
      && (LevelShouldSpill(ledger, i - 1) ==> f.IsLive() && f.Resolve() == MergeBuckets(protocol, base, above, shadows, i < 10))
      && (!LevelShouldSpill(ledger, i - 1) ==>
            var old' := levels[i].next;
            if old'.IsLive() then f.IsLive() && f.Resolve() == old'.Resolve() else f == old')
  {
    hide SpillDown, ResolveFrom, MergeBuckets, LevelShouldSpill, ShouldMergeWithEmptyCurr, Commits;
    SpillIff(ledger, LAST_LEVEL);
    SpillDownStarts(levels, LAST_LEVEL, ledger, protocol, Youngest(levels, 18), i);
    var spilled := SpillDown(levels, LAST_LEVEL, ledger, protocol, Youngest(levels, 18)).value;
    var absorbed := AbsorbFresh(spilled, ledger, protocol, batch).value;
    assert absorbed[i] == spilled[i];
    ResolveStarts(absorbed, 0, ready, i);
    assert Youngest(levels, 18)[..2 * (i - 1)] == Youngest(levels, 2 * (i - 1));
  }

  // ----- restarting -----

  /** Level `j` has no merge to restart, though the snap above it holds something from before
      protocol 12, and no level from `i` on ends the restart before it. */
  predicate Unrestartable(levels: Levels, i: nat, j: nat)
    requires j < NUM_LEVELS
  {
    && j > 0 && i <= j && levels[j].next.Clear? && levels[j - 1].snap != EmptyBucket && Version(levels[j - 1].snap) < 12
    && forall l :: i <= l < j && l > 0 && levels[l].next.Clear? ==> levels[l - 1].snap != EmptyBucket
  }

  /** A restart is refused exactly in this case. */
  lemma {:induction false} RestartFailsIff(levels: Levels, i: nat, maxVersion: nat, ledger: U32)
    requires i <= NUM_LEVELS
    ensures RestartFrom(levels, i, maxVersion, ledger).Error? <==> exists j :: 0 <= j < NUM_LEVELS && Unrestartable(levels, i, j)
    decreases NUM_LEVELS - i, 1
  {
    hide Mask, LevelHalf, ShouldMergeWithEmptyCurr;
    if i < NUM_LEVELS {
      var level := levels[i];
      if level.next.HasHashes() {
        RestartRest(levels, i, level.(next := MadeLive(level.next, maxVersion, i)), maxVersion, ledger);
      } else if level.next.Clear? && i > 0 {
        var snap := levels[i - 1].snap;
        if snap == EmptyBucket {
        } else if Version(snap) < FIRST_PROTOCOL_SHADOWS_REMOVED {
          assert Unrestartable(levels, i, i);
        } else {
          LevelFacts(i - 1);
          RestartRest(levels, i, level.Prepared(i, Mask(ledger, LevelHalf(i - 1)), Version(snap), snap, []), maxVersion, ledger);
        }
      } else {
        RestartRest(levels, i, level, maxVersion, ledger);
        assert levels[i := level] == levels;
      }
    }
  }

  lemma {:induction false} RestartRest(levels: Levels, i: nat, level: Level, maxVersion: nat, ledger: U32)
    requires i < NUM_LEVELS && level.curr == levels[i].curr && level.snap == levels[i].snap
    requires i > 0 && levels[i].next.Clear? ==> levels[i - 1].snap != EmptyBucket && Version(levels[i - 1].snap) >= 12
    ensures RestartFrom(levels[i := level], i + 1, maxVersion, ledger).Error?
      <==> exists j :: 0 <= j < NUM_LEVELS && Unrestartable(levels, i, j)
    decreases NUM_LEVELS - i, 0
  {
    hide RestartFrom, Unrestartable;
    var levels', n := levels[i := level], i + 1;
    RestartFailsIff(levels', n, maxVersion, ledger);
    forall j | 0 <= j < NUM_LEVELS ensures Unrestartable(levels, i, j) <==> Unrestartable(levels', n, j) {
      RestartNeighbours(levels, i, level, j);
    }
    if j :| 0 <= j < NUM_LEVELS && Unrestartable(levels', n, j) {
      assert Unrestartable(levels, i, j);
    }
  }

  lemma RestartNeighbours(levels: Levels, i: nat, level: Level, j: nat)
    requires i < NUM_LEVELS && j < NUM_LEVELS && level.snap == levels[i].snap
    requires i > 0 && levels[i].next.Clear? ==> levels[i - 1].snap != EmptyBucket && Version(levels[i - 1].snap) >= 12
    ensures Unrestartable(levels, i, j) <==> Unrestartable(levels[i := level], i + 1, j)
  {
    hide Version;
    var levels' := levels[i := level];
    assert forall l :: 0 <= l < NUM_LEVELS ==> levels'[l].snap == levels[l].snap;
    assert forall l :: i + 1 <= l < NUM_LEVELS ==> levels'[l].next == levels[l].next;
    if Unrestartable(levels', i + 1, j) {
      forall l | i <= l < j && l > 0 && levels[l].next.Clear? ensures levels[l - 1].snap != EmptyBucket {
        if l > i { assert levels'[l - 1].snap != EmptyBucket; }
      }
    }
    if Unrestartable(levels, i, j) {
      forall l | i + 1 <= l < j && levels'[l].next.Clear? ensures levels'[l - 1].snap != EmptyBucket {
        assert levels[l].next.Clear?;
      }
    }
  }

  /** A stored merge is made live with its inputs or its output; under a version bound its inputs exceed,
      it fails. */
  lemma MadeLiveIs(f: FutureBucket, maxVersion: nat, i: nat)
    requires f.HasHashes()
    ensures f.HashOutput? ==> MadeLive(f, maxVersion, i).Resolve() == Ok(f.stored)
    ensures f.HashInputs? ==>
      var g, version := MadeLive(f, maxVersion, i), MergeVersion(f.storedCurr, f.storedSnap, f.storedShadows);
      g.Resolve() == if version > maxVersion then Error(VersionTooHigh)
                     else MergeBuckets(version, f.storedCurr, f.storedSnap, f.storedShadows, i < 10)
  {
    hide MergeEntries, MergeVersion;
  }

  /** What is stored of a level: its buckets, and its merge by name, or nothing where that is asked for and
      the snap above is from protocol 12 on. */
  lemma SavedForms(levels: Levels, cleared: set<nat>, i: nat)
    requires i < NUM_LEVELS
    ensures var s := Saved(levels, cleared)[i];
      && s.curr == levels[i].curr && s.snap == levels[i].snap
      && (i > 0 && i in cleared && Version(levels[i - 1].snap) >= 12 ==> s.next == Clear)
      && (i == 0 || i !in cleared || Version(levels[i - 1].snap) < 12 ==>
            match levels[i].next
            case LiveOutput(b) => s.next == HashOutput(b)
            case LiveInputs(c, n, sh, _, _) => s.next == HashInputs(c, n, sh)
            case f => s.next == f)
  {
  }
}
