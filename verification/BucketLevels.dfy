/** The levels of the bucket list: curr, snap and the merge pending on each, and the
    transitions they make when a ledger closes or the list is restarted. */
module BucketLevels {
  import opened Outcomes
  import opened Buckets
  import opened BucketMerge
  import opened Schedule

  /** A merge that is running, finished, or stored by the names of its inputs or output. A
      name stands for the bucket it names. */
  datatype FutureBucket =
    | Clear
    | HashOutput(stored: Bucket)
    | HashInputs(storedCurr: Bucket, storedSnap: Bucket, storedShadows: seq<Bucket>)
    | LiveOutput(output: Bucket)
    | LiveInputs(curr: Bucket, snap: Bucket, shadows: seq<Bucket>, maxVersion: nat, keepDead: bool)
  {
    predicate IsLive() { LiveInputs? || LiveOutput? }

    predicate HasHashes() { HashInputs? || HashOutput? }

    /** The bucket the merge delivers. */
    function Resolve(): Outcome<Bucket>
      requires IsLive()
    {
      match this
      case LiveOutput(b) => Ok(b)
      case LiveInputs(c, s, sh, v, d) => MergeBuckets(v, c, s, sh, d)
    }
  }

  datatype Level = Level(curr: Bucket, snap: Bucket, next: FutureBucket) {

    function Snapped(): Level { Level(EmptyBucket, curr, next) }

    function Committed(): Outcome<Level> {
      if next.IsLive() then
        var b :- next.Resolve();
        Ok(Level(b, snap, Clear))
      else
        Ok(this)
    }

    /** Start merging `above`, the snap of the level above, into this level, number `i`. */
    function Prepared(i: nat, ledger: U32, protocol: nat, above: Bucket, shadows: seq<Bucket>): Level
      requires i < NUM_LEVELS
    {
      var base := if ShouldMergeWithEmptyCurr(ledger, i) then EmptyBucket else curr;
      var used := if Version(above) >= FIRST_PROTOCOL_SHADOWS_REMOVED then [] else shadows;
      this.(next := LiveInputs(base, above, used, protocol, KeepDeadEntries(i)))
    }
  }

  const EmptyLevel := Level(EmptyBucket, EmptyBucket, Clear)

  type Levels = ls: seq<Level> | |ls| == 11 witness ElevenEmpty

  const ElevenEmpty := [EmptyLevel, EmptyLevel, EmptyLevel, EmptyLevel, EmptyLevel, EmptyLevel,
                        EmptyLevel, EmptyLevel, EmptyLevel, EmptyLevel, EmptyLevel]

  const EmptyLevels: Levels := ElevenEmpty

  /** Position 2i is the curr of level i, position 2i + 1 its snap. */
  function BucketAt(levels: Levels, p: nat): Bucket
    requires p < 22
  {
    if p % 2 == 0 then levels[p / 2].curr else levels[p / 2].snap
  }

  /** The buckets at the first `n` positions, newest first. */
  function Youngest(levels: Levels, n: nat): (bs: seq<Bucket>)
    requires n <= 22
    ensures |bs| == n
  {
    seq(n, p requires 0 <= p < n => BucketAt(levels, p))
  }

  /** Level i - 1 snaps; level i commits its pending merge and starts the next. */
  function SpillInto(levels: Levels, i: nat, ledger: U32, protocol: nat, shadows: seq<Bucket>): Outcome<Levels>
    requires 1 <= i < NUM_LEVELS
  {
    var above := levels[i - 1].Snapped();
    var level :- levels[i].Committed();
    Ok(levels[i - 1 := above][i := level.Prepared(i, ledger, protocol, above.snap, shadows)])
  }

  /** The levels from `i` down to 1, each taking a spill if the level above it is due.
      `shadows` are the buckets of the levels younger than i - 1. */
  function SpillDown(levels: Levels, i: nat, ledger: U32, protocol: nat, shadows: seq<Bucket>): Outcome<Levels>
    requires i < NUM_LEVELS && |shadows| == if i == 0 then 0 else 2 * (i - 1)
    decreases i
  {
    if i == 0 then Ok(levels)
    else
      var next :- if LevelShouldSpill(ledger, i - 1) then SpillInto(levels, i, ledger, protocol, shadows) else Ok(levels);
      SpillDown(next, i - 1, ledger, protocol, if i == 1 then [] else shadows[..2 * (i - 2)])
  }

  /** The newest level takes in a fresh bucket. */
  function AbsorbFresh(levels: Levels, ledger: U32, protocol: nat, batch: Bucket): Outcome<Levels> {
    var level :- levels[0].Prepared(0, ledger, protocol, batch, []).Committed();
    Ok(levels[0 := level])
  }

  /** Finished merges from level `i` on are replaced by their output. */
  function ResolveFrom(levels: Levels, i: nat, ready: set<nat>): Outcome<Levels>
    requires i <= NUM_LEVELS
    decreases NUM_LEVELS - i
  {
    if i == NUM_LEVELS then Ok(levels)
    else if levels[i].next.LiveInputs? && i in ready then
      var b :- levels[i].next.Resolve();
      ResolveFrom(levels[i := levels[i].(next := LiveOutput(b))], i + 1, ready)
    else ResolveFrom(levels, i + 1, ready)
  }

  /** Closing a ledger. `ready` are the levels whose merges happen to be finished by then. */
  function AddBatch(levels: Levels, ledger: U32, protocol: nat, batch: Bucket, ready: set<nat>): Outcome<Levels> {
    var spilled :- SpillDown(levels, LAST_LEVEL, ledger, protocol, Youngest(levels, 18));
    var absorbed :- AbsorbFresh(spilled, ledger, protocol, batch);
    ResolveFrom(absorbed, 0, ready)
  }

  // ----- saving and restarting -----

  /** A level as stored in a history archive state: pending merges over a snap from protocol
      12 on may be stored as nothing, all others by name. */
  function Saved(levels: Levels, cleared: set<nat>): Levels {
    seq(11, i requires 0 <= i < 11 =>
      if i > 0 && i in cleared && Version(levels[i - 1].snap) >= FIRST_PROTOCOL_SHADOWS_REMOVED
      then levels[i].(next := Clear)
      else levels[i].(next := SavedFuture(levels[i].next)))
  }

  function SavedFuture(f: FutureBucket): FutureBucket {
    match f
    case LiveOutput(b) => HashOutput(b)
    case LiveInputs(c, s, sh, _, _) => HashInputs(c, s, sh)
    case _ => f
  }

  function MadeLive(f: FutureBucket, maxVersion: nat, i: nat): FutureBucket
    requires f.HasHashes()
  {
    match f
    case HashOutput(b) => LiveOutput(b)
    case HashInputs(c, s, sh) => LiveInputs(c, s, sh, maxVersion, KeepDeadEntries(i))
  }

  /** The levels from `i` on with their merges running again, after `ledger` was closed. */
  function RestartFrom(levels: Levels, i: nat, maxVersion: nat, ledger: U32): Outcome<Levels>
    requires i <= NUM_LEVELS
    decreases NUM_LEVELS - i
  {
    if i == NUM_LEVELS then Ok(levels)
    else if levels[i].next.HasHashes() then
      RestartFrom(levels[i := levels[i].(next := MadeLive(levels[i].next, maxVersion, i))], i + 1, maxVersion, ledger)
    else if levels[i].next.Clear? && i > 0 then
      var snap := levels[i - 1].snap;
      if snap == EmptyBucket then Ok(levels)
      else if Version(snap) < FIRST_PROTOCOL_SHADOWS_REMOVED then Error(InvalidRestart)
      else
        LevelFacts(i - 1);
        var start := Mask(ledger, LevelHalf(i - 1));
        RestartFrom(levels[i := levels[i].Prepared(i, start, Version(snap), snap, [])], i + 1, maxVersion, ledger)
    else RestartFrom(levels, i + 1, maxVersion, ledger)
  }
}
