/** Whole runs of the bucket list: ledgers closing, merges finishing at any time, restarts. */
module BucketRuns {
  import opened Outcomes
  import opened LedgerKeys
  import opened Buckets
  import opened Lifecycle
  import opened BucketMerge
  import opened BucketFresh
  import opened Bits
  import opened Schedule
  import opened BucketLevels
  import opened BucketInvariant
  import opened BucketClosing

  /** Two levels that hold the same buckets, and whose pending merges deliver the same. */
  ghost predicate SameLevel(a: Level, b: Level) {
    && a.curr == b.curr && a.snap == b.snap
    && ((a.next.Clear? && b.next.Clear?)
        || (a.next.IsLive() && b.next.IsLive() && a.next.Resolve() == b.next.Resolve()))
  }

  ghost predicate SameLevels(a: Levels, b: Levels) {
    forall i :: 0 <= i < 11 ==> SameLevel(a[i], b[i])
  }

  ghost predicate AllInputsOk(levels: Levels, ledger: U32, protocol: nat) {
    forall i :: 1 <= i < NUM_LEVELS ==> InputsOk(levels, i, ShouldMergeWithEmptyCurr(ledger, i), protocol)
  }

  /** The invariant does not depend on how far the merges have come. */
  lemma SameLevelsKeep(a: Levels, b: Levels, ledger: U32, protocol: nat, m: Ledger)
    requires Inv(a, ledger, protocol, m) && SameLevels(a, b) && AllInputsOk(b, ledger, protocol)
    ensures Inv(b, ledger, protocol, m)
  {
    hide WellFormed, Delivers, InputsOk, LevelHalf, ShouldMergeWithEmptyCurr, Legal, View;
    forall p | 0 <= p < 22 ensures BucketAt(a, p) == BucketAt(b, p) {
      assert SameLevel(a[p / 2], b[p / 2]);
    }
    assert SameLevel(a[0], b[0]) && SameLevel(a[10], b[10]);
    forall k ensures Chain(b, k) == Chain(a, k) {
    }
    assert KeysOk(b, m);
    forall j | 1 <= j < NUM_LEVELS ensures Pending(b, j, ledger, protocol) {
      assert Pending(a, j, ledger, protocol);
      assert SameLevel(a[j], b[j]) && SameLevel(a[j - 1], b[j - 1]);
      if ledger >= LevelHalf(j - 1) {
        SameBucketsDeliver(a, b, j, ShouldMergeWithEmptyCurr(ledger, j), protocol, a[j].next.Resolve().value);
      }
    }
  }

  lemma {:induction false} ResolveKeeps(levels: Levels, i: nat, ready: set<nat>, ledger: U32, protocol: nat, m: Ledger)
    requires i <= NUM_LEVELS && Inv(levels, ledger, protocol, m)
    ensures var r := ResolveFrom(levels, i, ready); r.Ok? && Inv(r.value, ledger, protocol, m)
    decreases NUM_LEVELS - i
  {
    hide BucketsOk, KeysOk, VersionsAged, Delivers, LevelHalf, ShouldMergeWithEmptyCurr, MergeBuckets;
    if i < NUM_LEVELS {
      if levels[i].next.LiveInputs? && i in ready {
        assert i > 0;
        assert Pending(levels, i, ledger, protocol);
        var b := levels[i].next.Resolve().value;
        var levels' := levels[i := levels[i].(next := LiveOutput(b))];
        forall j | 1 <= j < NUM_LEVELS ensures InputsOk(levels', j, ShouldMergeWithEmptyCurr(ledger, j), protocol) {
          assert Pending(levels, j, ledger, protocol);
        }
        forall j | 0 <= j < 11 ensures SameLevel(levels[j], levels'[j]) {
          if j > 0 { assert Pending(levels, j, ledger, protocol); }
        }
        SameLevelsKeep(levels, levels', ledger, protocol, m);
        ResolveKeeps(levels', i + 1, ready, ledger, protocol, m);
      } else {
        ResolveKeeps(levels, i + 1, ready, ledger, protocol, m);
      }
    }
  }

  /** Before the first level is visited. */
  lemma ClosingStarts(levels: Levels, ledger: U32, protocol0: nat, protocol: nat, m: Ledger)
    requires 0 < ledger && protocol0 <= protocol && Inv(levels, ledger - 1, protocol0, m)
    ensures Mid(levels, LAST_LEVEL, ledger, protocol, m)
  {
    hide WellFormed, SlotsPending, KeysOk, LevelHalf, ShouldMergeWithEmptyCurr, MergeBuckets, LevelShouldSpill, Round, MergeVersion;
    SpillIff(ledger, LAST_LEVEL);
    var before := ledger - 1;
    forall j | 1 <= j < NUM_LEVELS ensures Pending(levels, j, before, protocol) {
      assert Pending(levels, j, before, protocol0);
    }
  }

  /** When `ledger` closes, every commit leaves out only what may be left out of the list it meets. */
  ghost predicate KeepsClose(levels: Levels, ledger: U32, protocol: nat) {
    KeepsDown(levels, LAST_LEVEL, ledger, protocol, Youngest(levels, 18))
  }

  /** When `ledger` closes, after every commit all histories are legal and the list still holds `m`. */
  ghost predicate KeptClose(levels: Levels, ledger: U32, protocol: nat, m: Ledger) {
    KeptDown(levels, LAST_LEVEL, ledger, protocol, Youngest(levels, 18), m)
  }

  /** The two say the same. Then closing a ledger succeeds and keeps the invariant, with the batch
      applied to the map. */
  lemma AddBatchKeepsIff(levels: Levels, ledger: U32, protocol0: nat, protocol: nat, m: Ledger, batch: Bucket, ready: set<nat>)
    requires 0 < ledger && protocol0 <= protocol && Inv(levels, ledger - 1, protocol0, m) && BatchOk(batch, protocol, m)
    ensures KeptClose(levels, ledger, protocol, m) <==> KeepsClose(levels, ledger, protocol)
    ensures KeepsClose(levels, ledger, protocol) ==>
      var r := AddBatch(levels, ledger, protocol, batch, ready);
      r.Ok? && Inv(r.value, ledger, protocol, Apply(m, batch.entries))
  {
    hide Inv, Mid, SpillDown, AbsorbFresh, BatchOk, KeepsDown, KeptDown, ResolveFrom;
    ClosingStarts(levels, ledger, protocol0, protocol, m);
    SpillDownKeepsIff(levels, LAST_LEVEL, ledger, protocol, m);
    if KeepsClose(levels, ledger, protocol) {
      var spilled := SpillDown(levels, LAST_LEVEL, ledger, protocol, Youngest(levels, 18)).value;
      AbsorbKeeps(spilled, ledger, protocol, m, batch);
      var absorbed := AbsorbFresh(spilled, ledger, protocol, batch).value;
      ResolveKeeps(absorbed, 0, ready, ledger, protocol, Apply(m, batch.entries));
    }
  }

  // ----- restarting -----

  /** Level `i` has its merge running again, from the same inputs. */
  ghost predicate Restored(levels: Levels, cur: Levels, i: nat, ledger: U32, protocol: nat)
    requires i < NUM_LEVELS
  {
    SameLevel(levels[i], cur[i]) && (i > 0 ==> InputsOk(cur, i, ShouldMergeWithEmptyCurr(ledger, i), protocol))
  }

  /** Restarted from level `i` on: the younger levels are done, the others as they were stored. */
  ghost predicate Restarting(levels: Levels, cur: Levels, i: nat, cleared: set<nat>, ledger: U32, protocol: nat)
    requires i <= NUM_LEVELS
  {
    && (forall j :: 0 <= j < i ==> Restored(levels, cur, j, ledger, protocol))
    && (forall j :: i <= j < 11 ==> cur[j] == Saved(levels, cleared)[j])
  }

  /** A merge that fits under `protocol` gives the same bucket under any larger bound. */
  lemma SameUnderBound(v: nat, v': nat, curr: Bucket, snap: Bucket, shadows: seq<Bucket>, keepDead: bool)
    requires MergeBuckets(v, curr, snap, shadows, keepDead).Ok? && MergeVersion(curr, snap, shadows) <= v'
    ensures MergeBuckets(v', curr, snap, shadows, keepDead) == MergeBuckets(v, curr, snap, shadows, keepDead)
  {
  }

  /** A merge stored by name is made live with the same inputs or output. */
  lemma NamedIsRestored(levels: Levels, cur: Levels, i: nat, maxVersion: nat, ledger: U32, protocol: nat)
    requires 0 < i < NUM_LEVELS && Pending(levels, i, ledger, protocol) && protocol <= maxVersion
    requires levels[i].next.IsLive() && cur[i] == levels[i].(next := SavedFuture(levels[i].next))
    requires cur[i - 1].snap == levels[i - 1].snap
    ensures var f := MadeLive(cur[i].next, maxVersion, i);
      Restored(levels, cur[i := cur[i].(next := f)], i, ledger, protocol)
  {
    hide MergeBuckets, MergeVersion, Delivers, LevelHalf, ShouldMergeWithEmptyCurr;
    var f := levels[i].next;
    if f.LiveInputs? { SameUnderBound(f.maxVersion, maxVersion, f.curr, f.snap, f.shadows, f.keepDead); }
  }

  /** A merge stored as nothing is rebuilt from the buckets of the list. */
  lemma ClearedIsRestored(levels: Levels, cur: Levels, i: nat, ledger: U32, protocol: nat)
    requires 0 < i < NUM_LEVELS && Pending(levels, i, ledger, protocol) && BucketsOk(levels, protocol)
    requires levels[i].next.IsLive() && cur[i] == levels[i].(next := Clear)
    requires cur[i - 1].snap == levels[i - 1].snap
    requires Version(levels[i - 1].snap) >= FIRST_PROTOCOL_SHADOWS_REMOVED && LevelSize(i - 1) < TWO_32
    ensures var snap := levels[i - 1].snap;
      var f := cur[i].Prepared(i, Mask(ledger, LevelHalf(i - 1)), Version(snap), snap, []);
      Restored(levels, cur[i := f], i, ledger, protocol)
  {
    hide MergeEntries, SlotsPending, LevelHalf, ShouldMergeWithEmptyCurr, WellFormed;
    EmptyCurrFromStart(ledger, i);
    assert BucketAt(levels, 2 * i - 1) == levels[i - 1].snap;
  }

  lemma {:induction false} NotStartedBelow(ledger: U32, i: nat, j: nat)
    requires 1 <= i <= j < NUM_LEVELS && ledger < LevelHalf(i - 1)
    ensures ledger < LevelHalf(j - 1)
  {
    if i < j { HalvesGrow(i - 1, j - 1); }
  }

  /** Restarting rebuilds every pending merge: same inputs, same output. Stopping early at an
      empty snap passes over levels without merges only. */
  lemma {:induction false} RestartRestores(levels: Levels, cur: Levels, i: nat, cleared: set<nat>, maxVersion: nat,
                                           ledger: U32, protocol: nat, m: Ledger)
    requires i <= NUM_LEVELS && Inv(levels, ledger, protocol, m) && protocol <= maxVersion
    requires Restarting(levels, cur, i, cleared, ledger, protocol)
    ensures var r := RestartFrom(cur, i, maxVersion, ledger);
      r.Ok? && SameLevels(levels, r.value) && AllInputsOk(r.value, ledger, protocol)
    decreases NUM_LEVELS - i
  {
    hide BucketsOk, KeysOk, VersionsAged, Delivers, LevelHalf, ShouldMergeWithEmptyCurr, MergeBuckets, InputsOk, SameLevel, Mask, Version;
    if i == NUM_LEVELS {
      AllRestored(levels, cur, ledger, protocol);
    } else if i == 0 {
      RestoredClear(levels, cur, 0, ledger, protocol);
      RestartRestores(levels, cur, 1, cleared, maxVersion, ledger, protocol, m);
    } else {
      assert Pending(levels, i, ledger, protocol);
      assert cur[i - 1].snap == levels[i - 1].snap by { RestoredSnap(levels, cur, i - 1, ledger, protocol); }
      LevelFacts(i - 1);
      if cur[i].next.HasHashes() {
        NamedIsRestored(levels, cur, i, maxVersion, ledger, protocol);
        RestartNext(levels, cur, i, cleared, cur[i].(next := MadeLive(cur[i].next, maxVersion, i)), ledger, protocol);
        RestartRestores(levels, cur[i := cur[i].(next := MadeLive(cur[i].next, maxVersion, i))], i + 1, cleared, maxVersion, ledger, protocol, m);
      } else if levels[i - 1].snap == EmptyBucket {
        EmptyVersion();
        forall j | i <= j < 11 ensures Restored(levels, cur, j, ledger, protocol) {
          NotStartedBelow(ledger, i, j);
          assert Pending(levels, j, ledger, protocol);
          RestoredClear(levels, cur, j, ledger, protocol);
        }
        AllRestored(levels, cur, ledger, protocol);
      } else {
        var snap := levels[i - 1].snap;
        var f := cur[i].Prepared(i, Mask(ledger, LevelHalf(i - 1)), Version(snap), snap, []);
        ClearedIsRestored(levels, cur, i, ledger, protocol);
        RestartNext(levels, cur, i, cleared, f, ledger, protocol);
        RestartRestores(levels, cur[i := f], i + 1, cleared, maxVersion, ledger, protocol, m);
      }
    }
  }

  lemma AllRestored(levels: Levels, cur: Levels, ledger: U32, protocol: nat)
    requires forall j :: 0 <= j < 11 ==> Restored(levels, cur, j, ledger, protocol)
    ensures SameLevels(levels, cur) && AllInputsOk(cur, ledger, protocol)
  {
    hide SameLevel, InputsOk, ShouldMergeWithEmptyCurr;
    forall j | 0 <= j < 11 ensures SameLevel(levels[j], cur[j]) {
      assert Restored(levels, cur, j, ledger, protocol);
    }
    forall j | 1 <= j < NUM_LEVELS ensures InputsOk(cur, j, ShouldMergeWithEmptyCurr(ledger, j), protocol) {
      assert Restored(levels, cur, j, ledger, protocol);
    }
  }

  lemma RestoredClear(levels: Levels, cur: Levels, i: nat, ledger: U32, protocol: nat)
    requires i < NUM_LEVELS && levels[i].next.Clear? && cur[i] == levels[i]
    ensures Restored(levels, cur, i, ledger, protocol)
  {
    hide ShouldMergeWithEmptyCurr;
  }

  lemma RestoredSnap(levels: Levels, cur: Levels, i: nat, ledger: U32, protocol: nat)
    requires i < NUM_LEVELS && Restored(levels, cur, i, ledger, protocol)
    ensures cur[i].snap == levels[i].snap
  {
    hide ShouldMergeWithEmptyCurr;
  }

  lemma RestartNext(levels: Levels, cur: Levels, i: nat, cleared: set<nat>, f: Level, ledger: U32, protocol: nat)
    requires 0 < i < NUM_LEVELS && Restarting(levels, cur, i, cleared, ledger, protocol)
    requires f.curr == cur[i].curr && f.snap == cur[i].snap && Restored(levels, cur[i := f], i, ledger, protocol)
    ensures Restarting(levels, cur[i := f], i + 1, cleared, ledger, protocol)
  {
    hide SameLevel, ShouldMergeWithEmptyCurr, MergeVersion;
    var cur' := cur[i := f];
    forall j | 0 <= j < i + 1 ensures Restored(levels, cur', j, ledger, protocol) {
      if j < i { assert Restored(levels, cur, j, ledger, protocol); }
    }
  }

  // ----- reading the list -----

  /** Apply the buckets at the positions from the oldest up to `p` to the empty ledger. */
  function ReadFrom(levels: Levels, p: nat): Ledger
    requires p <= 22
    decreases 22 - p
  {
    if p == 22 then map[] else Apply(ReadFrom(levels, p + 1), BucketAt(levels, p).entries)
  }

  lemma {:induction false} ReadLookup(levels: Levels, protocol: nat, p: nat, k: LedgerKey)
    requires p <= 22 && BucketsOk(levels, protocol)
    ensures Lookup(ReadFrom(levels, p), k) == View(Chain(levels, k)[p..])
    decreases 22 - p
  {
    if p < 22 {
      ReadLookup(levels, protocol, p + 1, k);
      ApplyLookup(ReadFrom(levels, p + 1), BucketAt(levels, p).entries, k);
      var c := Chain(levels, k)[p..];
      assert c[0] == At(BucketAt(levels, p), k) && c[1..] == Chain(levels, k)[p + 1..];
    }
  }

  /** The list, read oldest to newest, is the ledger. */
  lemma InvReads(levels: Levels, ledger: U32, protocol: nat, m: Ledger)
    requires Inv(levels, ledger, protocol, m)
    ensures ReadFrom(levels, 0) == m
  {
    hide BucketsOk, VersionsAged, AllPending, Legal, View, ReadFrom;
    forall k ensures Lookup(ReadFrom(levels, 0), k) == Lookup(m, k) {
      ReadLookup(levels, protocol, 0, k);
      assert Chain(levels, k)[0..] == Chain(levels, k);
    }
    SameLookupsSameLedger(ReadFrom(levels, 0), m);
  }

  // ----- runs -----

  datatype Event =
    | CloseLedger(protocol: nat, batch: Batch, ready: set<nat>)
    | Restart(cleared: set<nat>, maxVersion: nat)

  function LedgerCount(es: seq<Event>): nat {
    if es == [] then 0
    else LedgerCount(es[..|es| - 1]) + if es[|es| - 1].CloseLedger? then 1 else 0
  }

  function ProtocolAfter(es: seq<Event>): nat {
    if es == [] then 0
    else if es[|es| - 1].CloseLedger? then es[|es| - 1].protocol
    else ProtocolAfter(es[..|es| - 1])
  }

  /** The plain map the run builds: each batch applied to the ledger before it. */
  function LedgerAfter(es: seq<Event>): Ledger {
    if es == [] then map[]
    else if es[|es| - 1].CloseLedger? then Closed(LedgerAfter(es[..|es| - 1]), es[|es| - 1].batch)
    else LedgerAfter(es[..|es| - 1])
  }

  function StepLevels(levels: Levels, ledger: U32, e: Event): Outcome<Levels> {
    if e.CloseLedger? then AddBatch(levels, ledger, e.protocol, Fresh(e.protocol, e.batch), e.ready)
    else RestartFrom(Saved(levels, e.cleared), 0, e.maxVersion, ledger)
  }

  /** The levels after the events, the number of closed ledgers being the last ledger's. */
  function StateAfter(es: seq<Event>): Outcome<Levels>
    requires LedgerCount(es) < TWO_32
  {
    if es == [] then Ok(EmptyLevels)
    else
      var before :- StateAfter(es[..|es| - 1]);
      StepLevels(before, LedgerCount(es), es[|es| - 1])
  }

  /** Protocols never go down; a batch has distinct keys and, once creation is recorded,
      creates only what the ledger does not hold. */
  ghost predicate ValidRun(es: seq<Event>) {
    es == [] || (ValidRun(es[..|es| - 1]) && ValidEvent(es[..|es| - 1], es[|es| - 1]))
  }

  ghost predicate ValidEvent(before: seq<Event>, e: Event) {
    match e
    case CloseLedger(protocol, batch, _) =>
      && ProtocolAfter(before) <= protocol && ValidKeys(batch)
      && (UsesInit(protocol) ==> CreatesNew(batch, LedgerAfter(before)))
    case Restart(_, maxVersion) =>
      ProtocolAfter(before) <= maxVersion
  }

  /** Every commit of the run leaves out only what may be left out of the list it meets. */
  ghost predicate KeepsRun(es: seq<Event>)
    requires LedgerCount(es) < TWO_32
  {
    es == [] || (KeepsRun(es[..|es| - 1]) && KeepsEvent(es[..|es| - 1], es[|es| - 1], LedgerCount(es)))
  }

  ghost predicate KeepsEvent(before: seq<Event>, e: Event, ledger: U32)
    requires LedgerCount(before) < TWO_32
  {
    e.CloseLedger? && StateAfter(before).Ok? ==> KeepsClose(StateAfter(before).value, ledger, e.protocol)
  }

  /** After every commit of the run all histories are legal and the list holds the ledger of the time. */
  ghost predicate KeptRun(es: seq<Event>)
    requires LedgerCount(es) < TWO_32
  {
    es == [] || (KeptRun(es[..|es| - 1]) && KeptEvent(es[..|es| - 1], es[|es| - 1], LedgerCount(es)))
  }

  ghost predicate KeptEvent(before: seq<Event>, e: Event, ledger: U32)
    requires LedgerCount(before) < TWO_32
  {
    e.CloseLedger? ==>
      StateAfter(before).Ok? && KeptClose(StateAfter(before).value, ledger, e.protocol, LedgerAfter(before))
  }

  lemma EmptyInv()
    ensures Inv(EmptyLevels, 0, 0, map[])
  {
    hide LevelHalf;
    forall p | 0 <= p < 22 ensures BucketAt(EmptyLevels, p) == EmptyBucket {
    }
    forall k ensures Newest(Chain(EmptyLevels, k)) == Absent && Legal(Chain(EmptyLevels, k)) {
      AllAbsent(Chain(EmptyLevels, k));
    }
  }

  lemma {:induction false} AllAbsent(c: seq<Slot>)
    requires forall p :: 0 <= p < |c| ==> c[p] == Absent
    ensures Newest(c) == Absent && Legal(c)
  {
    if c != [] { AllAbsent(c[1..]); }
  }

  /** If every commit of a valid run leaves out only what may be left out, no event fails, and each
      keeps the invariant. */
  lemma {:induction false} RunKeeps(es: seq<Event>)
    requires LedgerCount(es) < TWO_32 && ValidRun(es) && KeepsRun(es)
    ensures StateAfter(es).Ok? && Inv(StateAfter(es).value, LedgerCount(es), ProtocolAfter(es), LedgerAfter(es))
  {
    hide Inv, AddBatch, RestartFrom, Saved, KeepsClose, KeptClose, Closed, Fresh;
    if es == [] {
      EmptyInv();
    } else {
      var before, e := es[..|es| - 1], es[|es| - 1];
      RunKeeps(before);
      var levels, m := StateAfter(before).value, LedgerAfter(before);
      match e
      case CloseLedger(protocol, batch, ready) =>
        FreshIsOk(protocol, batch, m);
        FreshApplies(protocol, batch, m);
        AddBatchKeepsIff(levels, LedgerCount(es), ProtocolAfter(before), protocol, m, Fresh(protocol, batch), ready);
      case Restart(cleared, maxVersion) =>
        RestartKeeps(levels, cleared, maxVersion, LedgerCount(es), ProtocolAfter(es), m);
    }
  }

  /** Over whole runs at any protocols: all histories stay legal and the list stays the ledger, at every
      commit, if and only if every commit leaves out only what may be left out. */
  lemma {:induction false} RunKeptIff(es: seq<Event>)
    requires LedgerCount(es) < TWO_32 && ValidRun(es)
    ensures KeptRun(es) <==> KeepsRun(es)
  {
    hide Inv, AddBatch, RestartFrom, Saved, KeepsClose, KeptClose, Closed, Fresh, StateAfter;
    if es != [] {
      var before, e := es[..|es| - 1], es[|es| - 1];
      RunKeptIff(before);
      if KeepsRun(before) && e.CloseLedger? {
        RunKeeps(before);
        FreshIsOk(e.protocol, e.batch, LedgerAfter(before));
        AddBatchKeepsIff(StateAfter(before).value, LedgerCount(es), ProtocolAfter(before), e.protocol, LedgerAfter(before),
                         Fresh(e.protocol, e.batch), e.ready);
      }
    }
  }

  lemma FreshIsOk(protocol: nat, batch: Batch, m: Ledger)
    requires ValidKeys(batch)
    requires UsesInit(protocol) ==> CreatesNew(batch, m)
    ensures BatchOk(Fresh(protocol, batch), protocol, m)
  {
    FreshApplies(protocol, batch, m);
    forall k | At(Fresh(protocol, batch), k).Init? ensures k !in m {
      var i := FreshInits(protocol, batch, k);
    }
  }

  lemma RestartKeeps(levels: Levels, cleared: set<nat>, maxVersion: nat, ledger: U32, protocol: nat, m: Ledger)
    requires Inv(levels, ledger, protocol, m) && protocol <= maxVersion
    ensures var r := RestartFrom(Saved(levels, cleared), 0, maxVersion, ledger);
      r.Ok? && Inv(r.value, ledger, protocol, m) && SameLevels(levels, r.value) && AllInputsOk(r.value, ledger, protocol)
  {
    hide Inv, RestartFrom, SameLevels, AllInputsOk;
    RestartRestores(levels, Saved(levels, cleared), 0, cleared, maxVersion, ledger, protocol, m);
    SameLevelsKeep(levels, RestartFrom(Saved(levels, cleared), 0, maxVersion, ledger).value, ledger, protocol, m);
  }
}
