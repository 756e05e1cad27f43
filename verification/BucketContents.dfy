/** From protocol 12 on: each bucket is the merge of the batches of exactly the ledgers it
    spans, however its merges were grouped, timed or restarted. */
module BucketContents {
  import opened Outcomes
  import opened LedgerKeys
  import opened Buckets
  import opened Lifecycle
  import opened BucketMerge
  import opened BucketFresh
  import opened ChainSteps
  import opened Bits
  import opened Schedule
  import opened LedgerSpans
  import opened BucketLevels
  import opened BucketInvariant
  import opened BucketClosing
  import opened BucketShape
  import opened BucketRuns
  import opened BucketSafety
  import opened BucketTheorems

  // ----- one key: batches that create what is not there, update and delete what is -----

  /** The slot takes a key from existing (or not) to existing (or not). */
  predicate Typed(s: Slot, before: bool, after: bool) {
    match s
    case Absent => before == after
    case Init(_) => !before && after
    case Live(_) => before && after
    case Dead => before && !after
  }

  lemma TypedCombine(a: Slot, b: Slot, p: bool, q: bool, r: bool)
    requires Typed(a, p, q) && Typed(b, q, r)
    ensures !Clash(a, b) && Typed(Combine(a, b), p, r)
  {
  }

  lemma TypedAssociative(a: Slot, b: Slot, c: Slot, p: bool, q: bool, r: bool, s: bool)
    requires Typed(a, p, q) && Typed(b, q, r) && Typed(c, r, s)
    ensures Combine(Combine(a, b), c) == Combine(a, Combine(b, c))
  {
  }

  /** The merge, oldest first, of the slots of ledgers lo + 1 to hi; slot `l - 1` is ledger l's. */
  function RangeSlot(fs: seq<Slot>, lo: nat, hi: nat): Slot
    requires hi <= |fs|
  {
    if hi <= lo then Absent else Combine(RangeSlot(fs, lo, hi - 1), fs[hi - 1])
  }

  /** `alive[l]` says whether the key exists after ledger l. */
  ghost predicate Lives(fs: seq<Slot>, alive: seq<bool>) {
    |alive| == |fs| + 1 && forall l :: 0 <= l < |fs| ==> Typed(fs[l], alive[l], alive[l + 1])
  }

  lemma {:induction false} RangeTyped(fs: seq<Slot>, alive: seq<bool>, lo: nat, hi: nat)
    requires Lives(fs, alive) && lo <= hi <= |fs|
    ensures Typed(RangeSlot(fs, lo, hi), alive[lo], alive[hi])
  {
    if lo < hi {
      RangeTyped(fs, alive, lo, hi - 1);
      TypedCombine(RangeSlot(fs, lo, hi - 1), fs[hi - 1], alive[lo], alive[hi - 1], alive[hi]);
    }
  }

  /** Adjacent spans merge to their union. */
  lemma {:induction false} RangeSplit(fs: seq<Slot>, alive: seq<bool>, lo: nat, mid: nat, hi: nat)
    requires Lives(fs, alive) && lo <= mid <= hi <= |fs|
    ensures Combine(RangeSlot(fs, lo, mid), RangeSlot(fs, mid, hi)) == RangeSlot(fs, lo, hi)
  {
    if mid < hi {
      RangeSplit(fs, alive, lo, mid, hi - 1);
      RangeTyped(fs, alive, lo, mid);
      RangeTyped(fs, alive, mid, hi - 1);
      TypedAssociative(RangeSlot(fs, lo, mid), RangeSlot(fs, mid, hi - 1), fs[hi - 1],
                       alive[lo], alive[mid], alive[hi - 1], alive[hi]);
    }
  }

  lemma {:induction false} RangeExtends(fs: seq<Slot>, f: Slot, lo: nat, hi: nat)
    requires hi <= |fs|
    ensures RangeSlot(fs + [f], lo, hi) == RangeSlot(fs, lo, hi)
  {
    if lo < hi { RangeExtends(fs, f, lo, hi - 1); }
  }

  // ----- the slots of a list -----

  /** At the last level tombstones are dropped: what is kept is what a reader sees. */
  predicate LastLevelSlot(s: Slot, r: Slot) {
    !s.Dead? && Overlay(None, s) == Overlay(None, r)
  }

  /** What level `i` says about a key whose slots per ledger are `fs`. */
  predicate Spans(fs: seq<Slot>, curr: Slot, snap: Slot, i: nat)
    requires i < NUM_LEVELS
  {
    var n := |fs|;
    TopsDescend(n, i);
    if i == LAST_LEVEL then
      snap.Absent? && LastLevelSlot(curr, RangeSlot(fs, 0, CurrTop(n, i)))
    else
      curr == RangeSlot(fs, SnapTop(n, i), CurrTop(n, i)) && snap == RangeSlot(fs, CurrTop(n, i + 1), SnapTop(n, i))
  }

  /** Merging into the last level keeps what a reader sees of the merge. */
  lemma LastLevelTakes(s: Slot, r: Slot, above: Slot, x: bool, y: bool)
    requires LastLevelSlot(s, r) && Typed(r, false, x) && Typed(above, x, y)
    ensures var taken := Combine(s, above);
      LastLevelSlot(if taken.Dead? then Absent else taken, Combine(r, above))
  {
  }

  /** Closing one more ledger, as the snap of level `i` sees it. */
  lemma SnapStep(fs: seq<Slot>, f: Slot, i: nat, curr: Slot, snap: Slot)
    requires i < LAST_LEVEL && Spans(fs, curr, snap, i)
    ensures var n := |fs| + 1;
      var spills := Multiple(n, LevelHalf(i));
      CurrTop(n, i + 1) <= SnapTop(n, i) <= n &&
      (if spills then curr else snap) == RangeSlot(fs + [f], CurrTop(n, i + 1), SnapTop(n, i))
  {
    hide CurrTop, SnapTop, LevelHalf, Multiple, RangeSlot;
    var n := |fs| + 1;
    TopsDescend(n - 1, i);
    TopsDescend(n, i);
    TopsStep(n, i);
    RangeExtends(fs, f, CurrTop(n, i + 1), SnapTop(n, i));
  }

  /** Closing one more ledger, as the curr of level `i` sees it; `above` is the slot in the snap
      of the level above. */
  lemma CurrStep(fs: seq<Slot>, alive: seq<bool>, f: Slot, i: nat, curr: Slot, snap: Slot, above: Slot)
    requires 0 < i < LAST_LEVEL && Lives(fs, alive) && Spans(fs, curr, snap, i)
    requires CurrTop(|fs|, i) <= SnapTop(|fs|, i - 1)
    requires above == RangeSlot(fs, CurrTop(|fs|, i), SnapTop(|fs|, i - 1))
    ensures var n := |fs| + 1;
      var left := if Multiple(n, LevelHalf(i)) then Absent else curr;
      SnapTop(n, i) <= CurrTop(n, i) <= n &&
      (if Multiple(n, LevelHalf(i - 1)) then Combine(left, above) else left) == RangeSlot(fs + [f], SnapTop(n, i), CurrTop(n, i))
  {
    hide CurrTop, SnapTop, LevelHalf, Multiple, RangeSlot;
    var n := |fs| + 1;
    TopsDescend(n - 1, i);
    TopsDescend(n, i);
    TopsStep(n, i);
    TopsStep(n, i - 1);
    if Multiple(n, LevelHalf(i)) { HalfNested(n, i); }
    else if Multiple(n, LevelHalf(i - 1)) {
      RangeSplit(fs, alive, SnapTop(n - 1, i), CurrTop(n - 1, i), SnapTop(n - 1, i - 1));
    }
    assert CurrTop(n, i) <= n - 1;
    RangeExtends(fs, f, SnapTop(n, i), CurrTop(n, i));
  }

  lemma FirstStep(fs: seq<Slot>, f: Slot, curr: Slot, snap: Slot)
    requires Spans(fs, curr, snap, 0)
    ensures var n := |fs| + 1;
      var left := if Multiple(n, LevelHalf(0)) then Absent else curr;
      SnapTop(n, 0) <= CurrTop(n, 0) == n && Combine(left, f) == RangeSlot(fs + [f], SnapTop(n, 0), n)
  {
    hide SnapTop, LevelHalf, Multiple;
    var n := |fs| + 1;
    TopsDescend(n - 1, 0);
    TopsStep(n, 0);
    TopsDescend(n, 0);
    RangeExtends(fs, f, SnapTop(n, 0), n - 1);
    assert RangeSlot(fs + [f], n - 1, n - 1) == Absent;
    assert SnapTop(n, 0) <= n - 1;
  }

  lemma LastStep(fs: seq<Slot>, alive: seq<bool>, f: Slot, curr: Slot, snap: Slot, above: Slot)
    requires Lives(fs, alive) && !alive[0] && Spans(fs, curr, snap, LAST_LEVEL)
    requires CurrTop(|fs|, LAST_LEVEL) <= SnapTop(|fs|, LAST_LEVEL - 1)
    requires above == RangeSlot(fs, CurrTop(|fs|, LAST_LEVEL), SnapTop(|fs|, LAST_LEVEL - 1))
    ensures var n := |fs| + 1;
      var taken := if Multiple(n, LevelHalf(LAST_LEVEL - 1)) then Combine(curr, above) else curr;
      CurrTop(n, LAST_LEVEL) <= n &&
      LastLevelSlot(if taken.Dead? then Absent else taken, RangeSlot(fs + [f], 0, CurrTop(n, LAST_LEVEL)))
  {
    hide CurrTop, SnapTop, LevelHalf, Multiple, RangeSlot;
    var n := |fs| + 1;
    var mid, hi := CurrTop(n - 1, LAST_LEVEL), SnapTop(n - 1, LAST_LEVEL - 1);
    TopsStep(n, LAST_LEVEL - 1);
    if Multiple(n, LevelHalf(LAST_LEVEL - 1)) {
      RangeTyped(fs, alive, 0, mid);
      RangeTyped(fs, alive, mid, hi);
      LastLevelTakes(curr, RangeSlot(fs, 0, mid), above, alive[mid], alive[hi]);
      RangeSplit(fs, alive, 0, mid, hi);
    }
    RangeExtends(fs, f, 0, CurrTop(n, LAST_LEVEL));
  }

  lemma HalfNested(n: nat, i: nat)
    requires 0 < i < NUM_LEVELS && Multiple(n, LevelHalf(i))
    ensures Multiple(n, LevelHalf(i - 1))
  {
    LevelFacts(i);
    RoundNested(n, LevelHalf(i - 1));
  }

  // ----- the buckets of a run -----

  function KeptAt(i: nat, s: Slot): Slot {
    if i == LAST_LEVEL && s.Dead? then Absent else s
  }

  lemma KeptIsEmit(mode: MergeMode, i: nat, k: LedgerKey, s: Slot)
    requires i < NUM_LEVELS && mode.shadows == [] && mode.keepDead == KeepDeadEntries(i)
    ensures Emit(mode, k, s) == KeptAt(i, s)
  {
  }

  /** What a level commits is the merge of what is left of its curr with the snap above. */
  lemma DeliveredSlot(levels: Levels, i: nat, e: bool, protocol: nat, w: Bucket, k: LedgerKey)
    requires 1 <= i < NUM_LEVELS && BucketsOk(levels, protocol) && VersionsAged(levels, 22) && NewOnly(levels, FIRST_PROTOCOL_SHADOWS_REMOVED)
    requires Delivers(levels, i, e, protocol, w)
    ensures At(w, k) == KeptAt(i, Combine(if e then Absent else At(levels[i].curr, k), At(levels[i - 1].snap, k)))
  {
    hide Steady, WellFormed, MergeEntries;
    var base, above := if e then EmptyBucket else levels[i].curr, levels[i - 1].snap;
    assert above == BucketAt(levels, 2 * i - 1) && levels[i].curr == BucketAt(levels, 2 * i);
    EmptyIsWellFormed();
    SortedEntries(base);
    SortedEntries(above);
    if Version(above) >= FIRST_PROTOCOL_SHADOWS_REMOVED {
      var mode := ModeFor(MergeVersion(base, above, []), [], KeepDeadEntries(i));
      MergeSlots(base.entries, above.entries, mode, k);
      KeptIsEmit(mode, i, k, Combine(At(base, k), At(above, k)));
    } else {
      assert NewBucket(levels[i].curr, FIRST_PROTOCOL_SHADOWS_REMOVED) && NewBucket(above, FIRST_PROTOCOL_SHADOWS_REMOVED);
      var c := Chain(levels, k);
      assert PendingSlot(c, i, e, At(w, k));
      assert c[2 * i] == At(levels[i].curr, k) && c[2 * i - 1] == At(above, k);
    }
  }

  lemma CommitsSlot(levels: Levels, i: nat, ledger: U32, protocol: nat, m: Ledger, k: LedgerKey)
    requires 1 <= i < NUM_LEVELS && 0 < ledger && Inv(levels, ledger - 1, protocol, m) && NewOnly(levels, FIRST_PROTOCOL_SHADOWS_REMOVED)
    requires LevelShouldSpill(ledger, i - 1)
    ensures At(Commits(levels, i, ledger), k) ==
      KeptAt(i, Combine(At(LeftCurr(levels, i, ledger), k), At(levels[i - 1].snap, k)))
  {
    hide BucketsOk, VersionsAged, KeysOk, NewOnly, Delivers, InputsOk, LevelHalf, LevelShouldSpill, ShouldMergeWithEmptyCurr, Multiple, MergeBuckets;
    assert Pending(levels, i, ledger - 1, protocol);
    SpillIff(ledger, i - 1);
    EmptyCurrWhenDue(ledger, i);
    if levels[i].next.IsLive() {
      DeliveredSlot(levels, i, LevelShouldSpill(ledger, i), protocol, levels[i].next.Resolve().value, k);
    }
  }

  /** What every level says about a key with the given slots per ledger. */
  ghost predicate ContentOk(levels: Levels, fs: seq<Slot>, k: LedgerKey) {
    forall i :: 0 <= i < NUM_LEVELS ==> Spans(fs, At(levels[i].curr, k), At(levels[i].snap, k), i)
  }

  lemma ContentStepAt(levels: Levels, ledger: U32, protocol0: nat, protocol: nat, m: Ledger, batch: Bucket, ready: set<nat>,
                      fs: seq<Slot>, alive: seq<bool>, k: LedgerKey, i: nat)
    requires 0 < ledger && Inv(levels, ledger - 1, protocol0, m) && NewOnly(levels, FIRST_PROTOCOL_SHADOWS_REMOVED) && i < NUM_LEVELS
    requires AddBatch(levels, ledger, protocol, batch, ready).Ok?
    requires Sorted(levels[0].curr.entries) && Sorted(batch.entries)
    requires |fs| == ledger - 1 && Lives(fs, alive) && !alive[0] && ContentOk(levels, fs, k)
    ensures var r := AddBatch(levels, ledger, protocol, batch, ready).value;
      Spans(fs + [At(batch, k)], At(r[i].curr, k), At(r[i].snap, k), i)
  {
    hide AddBatch, Inv, NewOnly, CurrTop, SnapTop, LevelHalf, LevelShouldSpill, Multiple, RangeSlot, Commits, Typed;
    var f, n := At(batch, k), ledger;
    var r := AddBatch(levels, ledger, protocol, batch, ready).value;
    AddBatchShape(levels, ledger, protocol, batch, ready, i);
    SpillIff(ledger, i);
    assert Spans(fs, At(levels[i].curr, k), At(levels[i].snap, k), i);
    if i < LAST_LEVEL { SnapStep(fs, f, i, At(levels[i].curr, k), At(levels[i].snap, k)); }
    if i == 0 {
      FirstMergeSlot(protocol, LeftCurr(levels, 0, ledger), batch, r[0].curr, k);
      FirstStep(fs, f, At(levels[0].curr, k), At(levels[0].snap, k));
    } else {
      SpillIff(ledger, i - 1);
      TopsDescend(n - 1, i - 1);
      assert Spans(fs, At(levels[i - 1].curr, k), At(levels[i - 1].snap, k), i - 1);
      var above := At(levels[i - 1].snap, k);
      if LevelShouldSpill(ledger, i - 1) { CommitsSlot(levels, i, ledger, protocol0, m, k); }
      if i == LAST_LEVEL {
        LastStep(fs, alive, f, At(levels[i].curr, k), At(levels[i].snap, k), above);
      } else {
        CurrStep(fs, alive, f, i, At(levels[i].curr, k), At(levels[i].snap, k), above);
      }
    }
  }

  lemma FirstMergeSlot(protocol: nat, curr: Bucket, batch: Bucket, r: Bucket, k: LedgerKey)
    requires Sorted(curr.entries) && Sorted(batch.entries)
    requires MergeBuckets(protocol, curr, batch, [], true) == Ok(r)
    ensures At(r, k) == Combine(At(curr, k), At(batch, k))
  {
    hide MergeEntries, Emit, Combine;
    var mode := ModeFor(MergeVersion(curr, batch, []), [], true);
    MergeSlots(curr.entries, batch.entries, mode, k);
    NoShadows(mode, k, Combine(At(curr, k), At(batch, k)));
  }

  /** The fresh buckets of the closed ledgers, in order. */
  function Batches(es: seq<Event>): (bs: seq<Bucket>)
    ensures |bs| == LedgerCount(es)
  {
    if es == [] then []
    else
      var before := Batches(es[..|es| - 1]);
      var e := es[|es| - 1];
      if e.CloseLedger? then before + [Fresh(e.protocol, e.batch)] else before
  }

  /** Updates and deletions are of what exists. */
  predicate TouchesExisting(b: Batch, m: Ledger) {
    && (forall i :: 0 <= i < |b.live| ==> b.live[i].key in m)
    && (forall i :: 0 <= i < |b.dead| ==> b.dead[i] in m)
  }

  /** A valid run at protocol 12 or later whose batches follow the lifecycle of entries. */
  ghost predicate StrictRun(es: seq<Event>) {
    LedgerCount(es) < TWO_32 && ValidRun(es) && AllFrom(es, 0, FIRST_PROTOCOL_SHADOWS_REMOVED) && StrictBatches(es)
  }

  ghost predicate StrictBatches(es: seq<Event>) {
    es == [] ||
    (StrictBatches(es[..|es| - 1]) &&
     (es[|es| - 1].CloseLedger? ==> TouchesExisting(es[|es| - 1].batch, LedgerAfter(es[..|es| - 1]))))
  }

  lemma TypedFresh(protocol: nat, b: Batch, m: Ledger, k: LedgerKey)
    requires ValidKeys(b) && CreatesNew(b, m) && TouchesExisting(b, m) && UsesInit(protocol)
    ensures Typed(At(Fresh(protocol, b), k), k in m, k in Closed(m, b))
  {
    hide Fresh, Collected, Sorted, TouchesExisting, CreatesNew, ValidKeys, Closed;
    FreshApplies(protocol, b, m);
    ApplyLookup(m, Fresh(protocol, b).entries, k);
    FreshSlot(protocol, b, m, k);
  }

  /** An INIT is of an absent key, a LIVE or DEAD of a present one. */
  lemma FreshSlot(protocol: nat, b: Batch, m: Ledger, k: LedgerKey)
    requires ValidKeys(b) && CreatesNew(b, m) && TouchesExisting(b, m) && UsesInit(protocol)
    ensures var slot := At(Fresh(protocol, b), k);
      (slot.Init? ==> k !in m) && (slot.Live? || slot.Dead? ==> k in m)
  {
    hide Sorted, DistinctKeys, Collected, TouchesExisting, CreatesNew, SortEntries;
    if At(Fresh(protocol, b), k) != Absent {
      SortKeeps(Collected(true, b), k);
      var i := FindWitness(Collected(true, b), k);
      CollectedAt(b, m, i);
    }
  }

  lemma CollectedAt(b: Batch, m: Ledger, i: nat)
    requires CreatesNew(b, m) && TouchesExisting(b, m) && i < |Collected(true, b)|
    ensures var e := Collected(true, b)[i];
      (e.InitEntry? ==> e.key !in m) && (e.LiveEntry? || e.DeadEntry? ==> e.key in m)
  {
    var e := Collected(true, b)[i];
    if i < |b.init| {
      assert e == Created(true, b.init[i]);
    } else if i < |b.init| + |b.live| {
      assert e.key == b.live[i - |b.init|].key;
    } else {
      assert e.key == b.dead[i - |b.init| - |b.live|];
    }
  }

  /** Whether the key exists, after each number of closed ledgers. */
  function Alive(es: seq<Event>, k: LedgerKey): (a: seq<bool>)
    ensures |a| == LedgerCount(es) + 1 && !a[0] && a[|a| - 1] == (k in LedgerAfter(es))
  {
    if es == [] then [false]
    else
      var before := Alive(es[..|es| - 1], k);
      if es[|es| - 1].CloseLedger? then before + [k in LedgerAfter(es)] else before
  }

  lemma LivesGrow(fs: seq<Slot>, alive: seq<bool>, f: Slot, a: bool)
    requires Lives(fs, alive) && Typed(f, alive[|fs|], a)
    ensures Lives(fs + [f], alive + [a])
  {
    hide Typed;
    forall l | 0 <= l < |fs + [f]| ensures Typed((fs + [f])[l], (alive + [a])[l], (alive + [a])[l + 1]) {
      if l < |fs| { assert Typed(fs[l], alive[l], alive[l + 1]); }
    }
  }

  lemma {:induction false} RunLives(es: seq<Event>, k: LedgerKey)
    requires StrictRun(es)
    ensures Lives(SlotsIn(Batches(es), k), Alive(es, k))
  {
    hide Typed, Fresh, Closed, Lives, SlotsIn;
    if es == [] {
      assert Lives(SlotsIn([], k), [false]) by { NoLives(k); }
    } else {
      var before, e := es[..|es| - 1], es[|es| - 1];
      RunLives(before, k);
      if e.CloseLedger? {
        assert e.protocol >= FIRST_PROTOCOL_SHADOWS_REMOVED;
        TypedFresh(e.protocol, e.batch, LedgerAfter(before), k);
        BatchesGrow(es, k);
        LivesGrow(SlotsIn(Batches(before), k), Alive(before, k), At(Fresh(e.protocol, e.batch), k), k in LedgerAfter(es));
      }
    }
  }

  lemma NoLives(k: LedgerKey)
    ensures Lives(SlotsIn([], k), [false])
  {
  }

  lemma BatchesGrow(es: seq<Event>, k: LedgerKey)
    requires es != [] && es[|es| - 1].CloseLedger?
    ensures var e := es[|es| - 1];
      SlotsIn(Batches(es), k) == SlotsIn(Batches(es[..|es| - 1]), k) + [At(Fresh(e.protocol, e.batch), k)]
  {
    hide Fresh, At;
    var e := es[|es| - 1];
    SlotsGrow(Batches(es[..|es| - 1]), Fresh(e.protocol, e.batch), k);
  }

  lemma SlotsGrow(bs: seq<Bucket>, b: Bucket, k: LedgerKey)
    ensures SlotsIn(bs + [b], k) == SlotsIn(bs, k) + [At(b, k)]
  {
    hide At;
  }

  /** After any strict run, each level's curr and snap hold, for each key, the merge of exactly
      the batches of the ledgers they span. */
  lemma {:induction false} RunContents(es: seq<Event>, k: LedgerKey)
    requires StrictRun(es)
    ensures StateAfter(es).Ok? && ContentOk(StateAfter(es).value, SlotsIn(Batches(es), k), k)
  {
    hide Inv, AddBatch, RestartFrom, Saved, NewOnly, SafeRun, KeepsRun, AllSteady, SlotsIn, Spans, SameLevels, AllInputsOk, Alive, Fresh;
    NewRunIsSafe(es, FIRST_PROTOCOL_SHADOWS_REMOVED);
    if es == [] {
      EmptyContents(k);
    } else {
      var before, e := es[..|es| - 1], es[|es| - 1];
      NewRunIsSafe(before, FIRST_PROTOCOL_SHADOWS_REMOVED);
      SafeRunKeeps(before);
      RunKeeps(before);
      RunContents(before, k);
      var levels, m, ledger: U32 := StateAfter(before).value, LedgerAfter(before), LedgerCount(es);
      if e.CloseLedger? {
        RunLives(before, k);
        BatchesGrow(es, k);
        FreshApplies(e.protocol, e.batch, m);
        SortedEntries(Fresh(e.protocol, e.batch));
        InvSorted(levels, LedgerCount(before), ProtocolAfter(before), m);
        forall i | 0 <= i < NUM_LEVELS
          ensures Spans(SlotsIn(Batches(es), k), At(StateAfter(es).value[i].curr, k), At(StateAfter(es).value[i].snap, k), i)
        {
          ContentStepAt(levels, ledger, ProtocolAfter(before), e.protocol, m, Fresh(e.protocol, e.batch), e.ready,
                        SlotsIn(Batches(before), k), Alive(before, k), k, i);
        }
      } else {
        RestartKeeps(levels, e.cleared, e.maxVersion, ledger, ProtocolAfter(before), m);
        SameContents(levels, StateAfter(es).value, SlotsIn(Batches(es), k), k);
      }
    }
  }

  lemma SameContents(a: Levels, b: Levels, fs: seq<Slot>, k: LedgerKey)
    requires SameLevels(a, b) && ContentOk(a, fs, k)
    ensures ContentOk(b, fs, k)
  {
    hide Spans;
    forall i | 0 <= i < NUM_LEVELS ensures Spans(fs, At(b[i].curr, k), At(b[i].snap, k), i) {
      assert SameLevel(a[i], b[i]) && Spans(fs, At(a[i].curr, k), At(a[i].snap, k), i);
    }
  }

  lemma EmptyContents(k: LedgerKey)
    ensures ContentOk(EmptyLevels, SlotsIn([], k), k)
  {
    forall i | 0 <= i < NUM_LEVELS ensures Spans([], Absent, Absent, i) {
      TopsDescend(0, i);
    }
  }

  lemma InvSorted(levels: Levels, ledger: U32, protocol: nat, m: Ledger)
    requires Inv(levels, ledger, protocol, m)
    ensures Sorted(levels[0].curr.entries)
  {
    hide VersionsAged, KeysOk, AllPending, BucketsOk, BucketAt, Sorted, Ends;
    OkAt(levels, protocol, 0);
    PositionsOf(levels, 0);
  }

  lemma SortedAt(levels: Levels, ledger: U32, protocol: nat, m: Ledger, i: nat)
    requires Inv(levels, ledger, protocol, m) && i < NUM_LEVELS
    ensures Sorted(levels[i].curr.entries) && Sorted(levels[i].snap.entries)
  {
    hide VersionsAged, KeysOk, AllPending, BucketsOk, BucketAt, Sorted, Ends;
    OkAt(levels, protocol, 2 * i);
    OkAt(levels, protocol, 2 * i + 1);
    PositionsOf(levels, i);
  }

  lemma OkAt(levels: Levels, protocol: nat, p: nat)
    requires BucketsOk(levels, protocol) && p < 22
    ensures Sorted(BucketAt(levels, p).entries)
  {
    hide Sorted, BucketAt;
  }

  // ----- counting ledgers -----

  /** Ledger number l creates the account with identifier l, and nothing else happens. */
  predicate OneAccountPerLedger(es: seq<Event>) {
    es == [] ||
    (OneAccountPerLedger(es[..|es| - 1]) &&
     (es[|es| - 1].CloseLedger? ==> es[|es| - 1].batch == Batch([LedgerEntry(Account(LedgerCount(es)), [])], [], [])))
  }

  /** The key is the account of one of the ledgers lo + 1 to hi. */
  predicate AccountOf(k: LedgerKey, lo: nat, hi: nat) {
    k.Account? && lo < k.accountID <= hi
  }

  lemma {:induction false} AccountSlots(es: seq<Event>, k: LedgerKey, l: nat)
    requires OneAccountPerLedger(es) && AllFrom(es, 0, FIRST_PROTOCOL_SHADOWS_REMOVED) && l < LedgerCount(es)
    ensures SlotsIn(Batches(es), k)[l] == if k == Account(l + 1) then Init([]) else Absent
  {
    hide SlotsIn, Fresh;
    var before, e := es[..|es| - 1], es[|es| - 1];
    if e.CloseLedger? {
      BatchesGrow(es, k);
      if l < LedgerCount(before) {
        AccountSlots(before, k, l);
      } else {
        assert e.protocol >= FIRST_PROTOCOL_SHADOWS_REMOVED;
        OneAccountFresh(e.protocol, l + 1, k);
      }
    } else {
      AccountSlots(before, k, l);
    }
  }

  lemma OneAccountFresh(protocol: nat, l: nat, k: LedgerKey)
    requires UsesInit(protocol)
    ensures At(Fresh(protocol, Batch([LedgerEntry(Account(l), [])], [], [])), k) == if k == Account(l) then Init([]) else Absent
  {
    var b, e := Batch([LedgerEntry(Account(l), [])], [], []), InitEntry(Account(l), []);
    assert Collected(true, b) == [e];
    assert [e][1..] == [];
    assert SortEntries([e]) == Insert(e, []) == [e];
    assert Find([e], k) == if e.key == k then SlotOf(e) else Find([e][1..], k);
  }

  lemma {:induction false} AccountRange(fs: seq<Slot>, k: LedgerKey, lo: nat, hi: nat)
    requires hi <= |fs|
    requires forall l :: 0 <= l < |fs| ==> fs[l] == if k == Account(l + 1) then Init([]) else Absent
    ensures RangeSlot(fs, lo, hi) == if AccountOf(k, lo, hi) then Init([]) else Absent
  {
    if lo < hi { AccountRange(fs, k, lo, hi - 1); }
  }

  /** A sorted bucket of the accounts of ledgers lo + 1 to hi has one entry for each. */
  lemma {:induction false} AccountCount(es: seq<BucketEntry>, lo: nat, hi: nat)
    requires Sorted(es) && lo <= hi
    requires forall k :: Find(es, k) != Absent <==> AccountOf(k, lo, hi)
    ensures |es| == hi - lo
  {
    if lo == hi {
      if es != [] { assert Find(es, es[0].key) != Absent; }
    } else {
      assert AccountOf(Account(lo + 1), lo, hi);
      assert Find(es, Account(lo + 1)) != Absent;
      assert Find(es, es[0].key) != Absent;
      SortedTail(es);
      if es[0].key != Account(lo + 1) {
        FoundAbove(es[0].key, es[1..], Account(lo + 1));
        AccountsOrdered(es[0].key.accountID, lo + 1);
      }
      forall k ensures Find(es[1..], k) != Absent <==> AccountOf(k, lo + 1, hi) {
        assert Find(es, k) != Absent <==> AccountOf(k, lo, hi);
      }
      AccountCount(es[1..], lo + 1, hi);
    }
  }

  lemma AccountsOrdered(a: nat, b: nat)
    ensures Less(Account(a), Account(b)) <==> a < b
  {
    var x, y := Fields(Account(a)), Fields(Account(b));
    assert x == [0, a] && y == [0, b];
    assert x[1..] == [a] && y[1..] == [b];
    assert [a][1..] == [] && [b][1..] == [];
    assert LexLess([a], [b]) <==> a < b;
  }

  /** In a run that creates one account per ledger, each bucket holds as many entries as the
      size computations say it holds ledgers. */
  lemma SizesCountLedgers(es: seq<Event>, i: nat)
    requires StrictRun(es) && OneAccountPerLedger(es) && i < NUM_LEVELS
    ensures StateAfter(es).Ok?
    ensures |StateAfter(es).value[i].curr.entries| == CurrSize(LedgerCount(es), i)
    ensures |StateAfter(es).value[i].snap.entries| == SnapSize(LedgerCount(es), i)
  {
    hide Inv, SafeRun, KeepsRun, AllSteady, NewOnly, SlotsIn, RangeSlot, CurrTop, SnapTop, AccountOf;
    NewRunIsSafe(es, FIRST_PROTOCOL_SHADOWS_REMOVED);
    SafeRunKeeps(es);
    RunKeeps(es);
    var levels, n := StateAfter(es).value, LedgerCount(es);
    SortedAt(levels, n, ProtocolAfter(es), LedgerAfter(es), i);
    TopsDescend(n, i);
    TopZero(n);
    var low := if i == LAST_LEVEL then 0 else CurrTop(n, i + 1);
    forall k ensures
      && (Find(levels[i].curr.entries, k) != Absent <==> AccountOf(k, SnapTop(n, i), CurrTop(n, i)))
      && (Find(levels[i].snap.entries, k) != Absent <==> AccountOf(k, low, SnapTop(n, i)))
    {
      CountAt(es, i, k);
    }
    AccountCount(levels[i].curr.entries, SnapTop(n, i), CurrTop(n, i));
    AccountCount(levels[i].snap.entries, low, SnapTop(n, i));
  }

  lemma CountAt(es: seq<Event>, i: nat, k: LedgerKey)
    requires StrictRun(es) && OneAccountPerLedger(es) && i < NUM_LEVELS
    ensures StateAfter(es).Ok?
    ensures var level, n := StateAfter(es).value[i], LedgerCount(es);
      && (At(level.curr, k) != Absent <==> AccountOf(k, SnapTop(n, i), CurrTop(n, i)))
      && (At(level.snap, k) != Absent <==> AccountOf(k, if i == LAST_LEVEL then 0 else CurrTop(n, i + 1), SnapTop(n, i)))
  {
    hide RangeSlot, CurrTop, SnapTop, SlotsIn;
    RunContents(es, k);
    var levels, n, fs := StateAfter(es).value, LedgerCount(es), SlotsIn(Batches(es), k);
    assert Spans(fs, At(levels[i].curr, k), At(levels[i].snap, k), i);
    forall l | 0 <= l < |fs| ensures fs[l] == if k == Account(l + 1) then Init([]) else Absent { AccountSlots(es, k, l); }
    TopsDescend(n, i);
    TopZero(n);
    AccountRange(fs, k, SnapTop(n, i), CurrTop(n, i));
    if i < LAST_LEVEL { AccountRange(fs, k, CurrTop(n, i + 1), SnapTop(n, i)); }
  }
}
