/** What holds of every run of the bucket list. */
module BucketTheorems {
  import opened LedgerKeys
  import opened Buckets
  import opened Lifecycle
  import opened BucketMerge
  import opened BucketFresh
  import opened ChainSteps
  import opened Schedule
  import opened BucketLevels
  import opened BucketInvariant
  import opened BucketClosing
  import opened BucketShape
  import opened BucketRuns
  import opened BucketSafety

  /** The bucket list refines the plain map: nothing throws, and applying all buckets oldest to
      newest gives the ledger that the batches build one by one. */
  lemma LedgerRefinement(es: seq<Event>)
    requires LedgerCount(es) < TWO_32 && ValidRun(es) && KeepsRun(es)
    ensures StateAfter(es).Ok? && ReadFrom(StateAfter(es).value, 0) == LedgerAfter(es)
  {
    hide Inv, ReadFrom;
    RunKeeps(es);
    InvReads(StateAfter(es).value, LedgerCount(es), ProtocolAfter(es), LedgerAfter(es));
  }

  /** Every key's chain of slots is legal, and every merge that is pending will succeed: the
      malformed-bucket errors cannot occur. */
  lemma LifecycleInvariant(es: seq<Event>, k: LedgerKey, i: nat)
    requires LedgerCount(es) < TWO_32 && ValidRun(es) && KeepsRun(es) && i < NUM_LEVELS
    ensures StateAfter(es).Ok?
    ensures Legal(Chain(StateAfter(es).value, k))
    ensures var f := StateAfter(es).value[i].next; f.Clear? || (f.IsLive() && f.Resolve().Ok?)
  {
    hide BucketsOk, VersionsAged, Delivers, LevelHalf, MergeBuckets, InputsOk, View;
    RunKeeps(es);
    var levels, ledger: U32 := StateAfter(es).value, LedgerCount(es);
    if i > 0 { assert Pending(levels, i, ledger, ProtocolAfter(es)); }
  }

  // ----- lists without entries from before a protocol -----

  /** Every bucket with entries is from protocol `v` on. */
  ghost predicate NewOnly(levels: Levels, v: nat) {
    forall p :: 0 <= p < 22 ==> NewBucket(BucketAt(levels, p), v)
  }

  predicate NewBucket(b: Bucket, v: nat) {
    b.entries == [] || Version(b) >= v
  }

  lemma DeliveredIsNew(levels: Levels, i: nat, e: bool, protocol: nat, w: Bucket, v: nat)
    requires 1 <= i < NUM_LEVELS && NewOnly(levels, v) && Delivers(levels, i, e, protocol, w)
    ensures NewBucket(w, v)
  {
    hide WellFormed, MergeBuckets, KeepDeadEntries;
    if w.entries != [] {
      var k := FindSome(w.entries);
      var c := Chain(levels, k);
      assert PendingSlot(c, i, e, At(w, k));
      assert c[2 * i] == At(BucketAt(levels, 2 * i), k) && c[2 * i - 1] == At(BucketAt(levels, 2 * i - 1), k);
      assert NewBucket(BucketAt(levels, 2 * i), v) && NewBucket(BucketAt(levels, 2 * i - 1), v);
    }
  }

  lemma CommitsNew(levels: Levels, i: nat, ledger: U32, protocol: nat, m: Ledger, v: nat)
    requires 0 < ledger && Inv(levels, ledger - 1, protocol, m) && NewOnly(levels, v) && 1 <= i < NUM_LEVELS
    ensures NewBucket(Commits(levels, i, ledger), v)
  {
    hide BucketsOk, VersionsAged, KeysOk, Delivers, LevelHalf, LevelShouldSpill, ShouldMergeWithEmptyCurr, InputsOk, MergeBuckets;
    assert Pending(levels, i, ledger - 1, protocol);
    if levels[i].next.IsLive() {
      DeliveredIsNew(levels, i, ShouldMergeWithEmptyCurr(ledger - 1, i), protocol, levels[i].next.Resolve().value, v);
    } else {
      assert levels[i].curr == BucketAt(levels, 2 * i);
    }
  }

  lemma NewAfter(levels: Levels, ledger: U32, protocol0: nat, protocol: nat, m: Ledger, batch: Bucket, ready: set<nat>,
                 j: nat, v: nat)
    requires 0 < ledger && Inv(levels, ledger - 1, protocol0, m) && NewOnly(levels, v) && j < NUM_LEVELS
    requires protocol >= v >= FIRST_PROTOCOL_SUPPORTING_INITENTRY && batch.meta == MetaFor(protocol)
    requires AddBatch(levels, ledger, protocol, batch, ready).Ok?
    ensures var r := AddBatch(levels, ledger, protocol, batch, ready).value;
      NewBucket(r[j].curr, v) && NewBucket(r[j].snap, v)
  {
    hide AddBatch, Inv, LevelShouldSpill, MergeEntries;
    AddBatchShape(levels, ledger, protocol, batch, ready, j);
    assert levels[j].curr == BucketAt(levels, 2 * j) && levels[j].snap == BucketAt(levels, 2 * j + 1);
    if j > 0 { CommitsNew(levels, j, ledger, protocol0, m, v); }
  }

  /** Merges of entries from protocol 11 on keep all tombstones. */
  lemma NewIsSafe(levels: Levels, ledger: U32, protocol: nat, m: Ledger)
    requires 0 < ledger && Inv(levels, ledger - 1, protocol, m) && NewOnly(levels, FIRST_PROTOCOL_SUPPORTING_INITENTRY)
    ensures SafeClose(levels, ledger)
  {
    hide Inv, LevelShouldSpill, ShouldMergeWithEmptyCurr, SafeMerge, Youngest, Commits, UsedShadows;
    forall i | 1 <= i < NUM_LEVELS ensures SafeStart(levels, i, ledger) {
      var above := levels[i - 1].curr;
      assert above == BucketAt(levels, 2 * (i - 1));
      CommitsNew(levels, i, ledger, protocol, m, FIRST_PROTOCOL_SUPPORTING_INITENTRY);
      NewMergeIsSafe(StartBase(levels, i, ledger), above, UsedShadows(above, Youngest(levels, 2 * i - 2)));
    }
  }

  lemma NewMergeIsSafe(base: Bucket, above: Bucket, shadows: seq<Bucket>)
    requires NewBucket(base, FIRST_PROTOCOL_SUPPORTING_INITENTRY) && NewBucket(above, FIRST_PROTOCOL_SUPPORTING_INITENTRY)
    ensures SafeMerge(base, above, shadows)
  {
    hide MergeVersion, Oldest;
    MergeVersionBounds(base, above, shadows);
  }

  // ----- runs -----

  /** From event `n` on, ledgers close at protocol `v` or later. */
  predicate AllFrom(es: seq<Event>, n: nat, v: nat) {
    forall i :: n <= i < |es| && es[i].CloseLedger? ==> es[i].protocol >= v
  }

  predicate AllTo11(es: seq<Event>) {
    forall i :: 0 <= i < |es| && es[i].CloseLedger? ==> es[i].protocol < FIRST_PROTOCOL_SHADOWS_REMOVED
  }

  /** After `n` safe events no entries from before protocol `v` are left. */
  ghost predicate UpgradedAt(es: seq<Event>, n: nat, v: nat) {
    && n <= |es| && LedgerCount(es[..n]) < TWO_32 && SafeRun(es[..n])
    && StateAfter(es[..n]).Ok? && NewOnly(StateAfter(es[..n]).value, v)
  }

  /** Once the list holds no entries from before protocol 11, all that follows is safe, whatever the
      versions of its merges. */
  lemma {:induction false} UpgradedRunIsSafe(es: seq<Event>, n: nat, v: nat)
    requires LedgerCount(es) < TWO_32 && ValidRun(es) && UpgradedAt(es, n, v) && AllFrom(es, n, v)
    requires v >= FIRST_PROTOCOL_SUPPORTING_INITENTRY
    ensures SafeRun(es) && StateAfter(es).Ok? && NewOnly(StateAfter(es).value, v)
  {
    hide Inv, AddBatch, RestartFrom, Saved, SafeClose, NewOnly, KeepsRun, AllSteady;
    if n == |es| {
      assert es[..n] == es;
    } else {
      var before, e := es[..|es| - 1], es[|es| - 1];
      assert e.CloseLedger? ==> e.protocol >= v;
      assert before[..n] == es[..n];
      UpgradedRunIsSafe(before, n, v);
      var levels := StateAfter(before).value;
      SafeRunKeeps(before);
      RunKeeps(before);
      if e.CloseLedger? {
        NewOnlyWeaker(levels, v);
        NewIsSafe(levels, LedgerCount(es), ProtocolAfter(before), LedgerAfter(before));
      }
      SafeRunKeeps(es);
      RunKeeps(es);
      NewStep(levels, LedgerCount(es), ProtocolAfter(before), LedgerAfter(before), e, v);
    }
  }

  lemma NewOnlyWeaker(levels: Levels, v: nat)
    requires NewOnly(levels, v) && v >= FIRST_PROTOCOL_SUPPORTING_INITENTRY
    ensures NewOnly(levels, FIRST_PROTOCOL_SUPPORTING_INITENTRY)
  {
    hide BucketAt;
    forall p | 0 <= p < 22 ensures NewBucket(BucketAt(levels, p), FIRST_PROTOCOL_SUPPORTING_INITENTRY) {
      assert NewBucket(BucketAt(levels, p), v);
    }
  }

  lemma EmptyIsNew(v: nat)
    ensures NewOnly(EmptyLevels, v)
  {
  }

  lemma NewStep(levels: Levels, ledger: U32, protocol: nat, m: Ledger, e: Event, v: nat)
    requires NewOnly(levels, v) && StepLevels(levels, ledger, e).Ok? && v >= FIRST_PROTOCOL_SUPPORTING_INITENTRY
    requires if e.CloseLedger? then 0 < ledger && Inv(levels, ledger - 1, protocol, m) && e.protocol >= v
             else Inv(levels, ledger, protocol, m) && protocol <= e.maxVersion
    ensures NewOnly(StepLevels(levels, ledger, e).value, v)
  {
    hide Inv, AddBatch, RestartFrom, Saved, NewBucket, SameLevels, AllInputsOk;
    var r := StepLevels(levels, ledger, e).value;
    forall p | 0 <= p < 22 ensures NewBucket(BucketAt(r, p), v) {
      if e.CloseLedger? {
        NewAfter(levels, ledger, protocol, e.protocol, m, Fresh(e.protocol, e.batch), e.ready, p / 2, v);
      } else {
        RestartKeeps(levels, e.cleared, e.maxVersion, ledger, protocol, m);
        SameBuckets(levels, r, p);
        assert NewBucket(BucketAt(levels, p), v);
      }
    }
  }

  lemma SameBuckets(a: Levels, b: Levels, p: nat)
    requires SameLevels(a, b) && p < 22
    ensures BucketAt(a, p) == BucketAt(b, p)
  {
    assert SameLevel(a[p / 2], b[p / 2]);
  }

  /** A run at protocol 11 or later is safe, an upgrade to 12 and beyond included. */
  lemma NewRunIsSafe(es: seq<Event>, v: nat)
    requires LedgerCount(es) < TWO_32 && ValidRun(es) && AllFrom(es, 0, v) && v >= FIRST_PROTOCOL_SUPPORTING_INITENTRY
    ensures SafeRun(es) && StateAfter(es).Ok? && NewOnly(StateAfter(es).value, v)
  {
    hide NewOnly;
    assert es[..0] == [];
    EmptyIsNew(v);
    UpgradedRunIsSafe(es, 0, v);
  }

  /** So is a run that stays below protocol 12, across an upgrade from 10 to 11 too: dropping
      shadowed entries never changes the ledger. */
  lemma {:induction false} OldRunIsSafe(es: seq<Event>)
    requires LedgerCount(es) < TWO_32 && ValidRun(es) && AllTo11(es)
    ensures SafeRun(es)
  {
    hide Inv, SafeClose, AddBatch, RestartFrom, Saved, KeepsRun, AllSteady;
    if es != [] {
      var before := es[..|es| - 1];
      OldRunIsSafe(before);
      SafeRunKeeps(before);
      RunKeeps(before);
      OldProtocol(before);
      if es[|es| - 1].CloseLedger? {
        OldIsSafe(StateAfter(before).value, LedgerCount(es), ProtocolAfter(before), LedgerAfter(before));
      }
    }
  }

  lemma {:induction false} OldProtocol(es: seq<Event>)
    requires AllTo11(es)
    ensures ProtocolAfter(es) < FIRST_PROTOCOL_SHADOWS_REMOVED
  {
    if es != [] { OldProtocol(es[..|es| - 1]); }
  }

  lemma OldIsSafe(levels: Levels, ledger: U32, protocol: nat, m: Ledger)
    requires 0 < ledger && Inv(levels, ledger - 1, protocol, m) && protocol < FIRST_PROTOCOL_SHADOWS_REMOVED
    ensures SafeClose(levels, ledger)
  {
    hide WellFormed, VersionsAged, KeysOk, AllPending, SafeClose, BucketAt;
    GuardedIsSafe(levels, ledger, protocol, m);
  }

  /** From protocol 11 on: the list is the ledger, despite entries dropped for their shadows, the
      change to merges without shadows, pending merges, restarts, and tombstones dropped at the last
      level. */
  lemma RefinementFrom11(es: seq<Event>)
    requires LedgerCount(es) < TWO_32 && ValidRun(es) && AllFrom(es, 0, FIRST_PROTOCOL_SUPPORTING_INITENTRY)
    ensures StateAfter(es).Ok? && ReadFrom(StateAfter(es).value, 0) == LedgerAfter(es)
  {
    hide ReadFrom, KeepsRun, SafeRun, AllSteady;
    NewRunIsSafe(es, FIRST_PROTOCOL_SUPPORTING_INITENTRY);
    SafeRunKeeps(es);
    LedgerRefinement(es);
  }

  /** And in every list so reached each key's history is legal, and no pending merge can fail. */
  lemma LifecycleFrom11(es: seq<Event>, k: LedgerKey, i: nat)
    requires LedgerCount(es) < TWO_32 && ValidRun(es) && AllFrom(es, 0, FIRST_PROTOCOL_SUPPORTING_INITENTRY)
    requires i < NUM_LEVELS
    ensures StateAfter(es).Ok? && Legal(Chain(StateAfter(es).value, k))
    ensures var f := StateAfter(es).value[i].next; f.Clear? || (f.IsLive() && f.Resolve().Ok?)
  {
    hide Legal, FutureBucket.Resolve, KeepsRun, SafeRun, AllSteady;
    NewRunIsSafe(es, FIRST_PROTOCOL_SUPPORTING_INITENTRY);
    SafeRunKeeps(es);
    LifecycleInvariant(es, k, i);
  }

  /** Up to protocol 11: the list is the ledger, despite entries dropped for their shadows. */
  lemma ShadowElisionSound(es: seq<Event>)
    requires LedgerCount(es) < TWO_32 && ValidRun(es) && AllTo11(es)
    ensures StateAfter(es).Ok? && ReadFrom(StateAfter(es).value, 0) == LedgerAfter(es)
  {
    hide ReadFrom, KeepsRun, SafeRun, AllSteady;
    OldRunIsSafe(es);
    SafeRunKeeps(es);
    LedgerRefinement(es);
  }
}
