/** When background merges finish, and when the list is restarted, leaves no trace in it. */
module BucketTiming {
  import opened Outcomes
  import opened LedgerKeys
  import opened Buckets
  import opened BucketMerge
  import opened BucketFresh
  import opened ChainSteps
  import opened Schedule
  import opened BucketLevels
  import opened BucketShape
  import opened BucketInvariant
  import opened BucketClosing
  import opened BucketRuns

  // ----- the same levels -----

  lemma SameSym(a: Levels, b: Levels)
    requires SameLevels(a, b)
    ensures SameLevels(b, a) && SameLevels(a, a)
  {
    hide MergeBuckets;
    forall i | 0 <= i < 11 ensures SameLevel(b[i], a[i]) && SameLevel(a[i], a[i]) {
      assert SameLevel(a[i], b[i]);
    }
  }

  lemma SameTrans(a: Levels, b: Levels, c: Levels)
    requires SameLevels(a, b) && SameLevels(b, c)
    ensures SameLevels(a, c)
  {
    hide MergeBuckets;
    forall i | 0 <= i < 11 ensures SameLevel(a[i], c[i]) {
      assert SameLevel(a[i], b[i]) && SameLevel(b[i], c[i]);
    }
  }

  lemma SameYoungest(a: Levels, b: Levels, n: nat)
    requires SameLevels(a, b) && n <= 22
    ensures Youngest(a, n) == Youngest(b, n)
  {
    hide MergeBuckets;
    forall p | 0 <= p < n ensures BucketAt(a, p) == BucketAt(b, p) {
      assert SameLevel(a[p / 2], b[p / 2]);
    }
  }

  lemma SameUpdate(a: Levels, b: Levels, i: nat, x: Level, y: Level)
    requires SameLevels(a, b) && i < 11 && SameLevel(x, y)
    ensures SameLevels(a[i := x], b[i := y])
  {
    hide SameLevel;
    var a', b' := a[i := x], b[i := y];
    forall j | 0 <= j < 11 ensures SameLevel(a'[j], b'[j]) {
      if j != i { assert SameLevel(a[j], b[j]); }
    }
  }

  /** Both fail alike, or both give the same levels. */
  ghost predicate SameOutcome(a: Outcome<Levels>, b: Outcome<Levels>) {
    if a.Ok? then b.Ok? && SameLevels(a.value, b.value) else b.Error? && a.why == b.why
  }

  lemma SpillIntoSame(a: Levels, b: Levels, i: nat, ledger: U32, protocol: nat, shadows: seq<Bucket>)
    requires SameLevels(a, b) && 1 <= i < NUM_LEVELS
    ensures SameOutcome(SpillInto(a, i, ledger, protocol, shadows), SpillInto(b, i, ledger, protocol, shadows))
  {
    hide MergeBuckets, ShouldMergeWithEmptyCurr;
    assert SameLevel(a[i - 1], b[i - 1]) && SameLevel(a[i], b[i]);
    var x, y := a[i].Committed(), b[i].Committed();
    if x.Ok? {
      var above := a[i - 1].Snapped().snap;
      SameUpdate(a, b, i - 1, a[i - 1].Snapped(), b[i - 1].Snapped());
      SameUpdate(a[i - 1 := a[i - 1].Snapped()], b[i - 1 := b[i - 1].Snapped()], i,
                 x.value.Prepared(i, ledger, protocol, above, shadows), y.value.Prepared(i, ledger, protocol, above, shadows));
    }
  }

  lemma {:induction false} SpillDownSame(a: Levels, b: Levels, i: nat, ledger: U32, protocol: nat, shadows: seq<Bucket>)
    requires SameLevels(a, b) && i < NUM_LEVELS && |shadows| == if i == 0 then 0 else 2 * (i - 1)
    ensures SameOutcome(SpillDown(a, i, ledger, protocol, shadows), SpillDown(b, i, ledger, protocol, shadows))
    decreases i
  {
    hide SameLevels, SpillInto, LevelShouldSpill;
    if i > 0 {
      var below := if i == 1 then [] else shadows[..2 * (i - 2)];
      if LevelShouldSpill(ledger, i - 1) {
        SpillIntoSame(a, b, i, ledger, protocol, shadows);
        var x, y := SpillInto(a, i, ledger, protocol, shadows), SpillInto(b, i, ledger, protocol, shadows);
        if x.Ok? { SpillDownSame(x.value, y.value, i - 1, ledger, protocol, below); }
      } else {
        SpillDownSame(a, b, i - 1, ledger, protocol, below);
      }
    }
  }

  lemma AbsorbSame(a: Levels, b: Levels, ledger: U32, protocol: nat, batch: Bucket)
    requires SameLevels(a, b)
    ensures SameOutcome(AbsorbFresh(a, ledger, protocol, batch), AbsorbFresh(b, ledger, protocol, batch))
  {
    hide MergeBuckets, ShouldMergeWithEmptyCurr;
    assert SameLevel(a[0], b[0]);
    var x, y := a[0].Prepared(0, ledger, protocol, batch, []).Committed(), b[0].Prepared(0, ledger, protocol, batch, []).Committed();
    if x.Ok? { SameUpdate(a, b, 0, x.value, y.value); }
  }

  lemma {:induction false} ResolveSame(a: Levels, i: nat, ready: set<nat>)
    requires SameLevels(a, a) && i <= NUM_LEVELS && ResolveFrom(a, i, ready).Ok?
    ensures SameLevels(a, ResolveFrom(a, i, ready).value)
    decreases NUM_LEVELS - i
  {
    hide MergeBuckets, SameLevels;
    if i < NUM_LEVELS {
      if a[i].next.LiveInputs? && i in ready {
        var level := a[i].(next := LiveOutput(a[i].next.Resolve().value));
        SameUpdate(a, a, i, a[i], level);
        assert a[i := a[i]] == a;
        SameSym(a, a[i := level]);
        SameSym(a[i := level], a);
        ResolveSame(a[i := level], i + 1, ready);
        SameTrans(a, a[i := level], ResolveFrom(a, i, ready).value);
      } else {
        ResolveSame(a, i + 1, ready);
      }
    }
  }

  /** Closing a ledger on the same levels, with the same merges finished, fails alike or gives the same
      levels; and whichever merges have finished, two closes that succeed give the same levels. */
  lemma AddBatchSame(a: Levels, b: Levels, ledger: U32, protocol: nat, batch: Bucket, ready: set<nat>, ready': set<nat>)
    requires SameLevels(a, b)
    ensures var x, y := AddBatch(a, ledger, protocol, batch, ready), AddBatch(b, ledger, protocol, batch, ready');
      (ready == ready' ==> SameOutcome(x, y)) && (x.Ok? && y.Ok? ==> SameLevels(x.value, y.value))
  {
    hide SameLevels, SpillDown, AbsorbFresh, ResolveFrom, Youngest;
    SameYoungest(a, b, 18);
    var shadows := Youngest(a, 18);
    SpillDownSame(a, b, LAST_LEVEL, ledger, protocol, shadows);
    var x, y := SpillDown(a, LAST_LEVEL, ledger, protocol, shadows), SpillDown(b, LAST_LEVEL, ledger, protocol, shadows);
    if x.Ok? {
      AbsorbSame(x.value, y.value, ledger, protocol, batch);
      var u, v := AbsorbFresh(x.value, ledger, protocol, batch), AbsorbFresh(y.value, ledger, protocol, batch);
      if u.Ok? {
        ResolveBoth(u.value, v.value, ready, ready');
      }
    }
  }

  lemma ResolveBoth(u: Levels, v: Levels, ready: set<nat>, ready': set<nat>)
    requires SameLevels(u, v)
    ensures var x, y := ResolveFrom(u, 0, ready), ResolveFrom(v, 0, ready');
      (ready == ready' ==> SameOutcome(x, y)) && (x.Ok? && y.Ok? ==> SameLevels(x.value, y.value))
  {
    hide SameLevels, ResolveFrom;
    var x, y := ResolveFrom(u, 0, ready), ResolveFrom(v, 0, ready');
    if ready == ready' { ResolveAlike(u, v, 0, ready); }
    if x.Ok? && y.Ok? {
      SameSym(u, v);
      SameSym(v, u);
      ResolveSame(u, 0, ready);
      ResolveSame(v, 0, ready');
      SameSym(u, x.value);
      SameTrans(x.value, u, v);
      SameTrans(x.value, v, y.value);
    }
  }

  /** Resolving fails at the first finished merge that fails. */
  lemma {:induction false} ResolveAlike(u: Levels, v: Levels, i: nat, ready: set<nat>)
    requires i <= NUM_LEVELS && SameLevels(u, v)
    ensures SameOutcome(ResolveFrom(u, i, ready), ResolveFrom(v, i, ready))
    decreases NUM_LEVELS - i
  {
    hide MergeBuckets, SameLevels;
    if i < NUM_LEVELS {
      SameAt(u, v, i);
      var x, y := Taken(u[i], i in ready), Taken(v[i], i in ready);
      if x.Ok? && y.Ok? {
        SameUpdate(u, v, i, x.value, y.value);
        assert u[i := u[i]] == u && v[i := v[i]] == v;
        ResolveAlike(u[i := x.value], v[i := y.value], i + 1, ready);
      }
    }
  }

  /** A level whose merge is replaced by its output, if it has finished. */
  function Taken(level: Level, finished: bool): Outcome<Level> {
    if level.next.LiveInputs? && finished then
      var b :- level.next.Resolve();
      Ok(level.(next := LiveOutput(b)))
    else Ok(level)
  }

  lemma SameAt(a: Levels, b: Levels, i: nat)
    requires i < NUM_LEVELS && SameLevels(a, b)
    ensures SameLevel(a[i], b[i])
  {
  }

  // ----- commits -----

  lemma SameChain(a: Levels, b: Levels, k: LedgerKey)
    requires SameLevels(a, b)
    ensures Chain(a, k) == Chain(b, k)
  {
    hide SameLevel, At;
    forall p | 0 <= p < 22 ensures BucketAt(a, p) == BucketAt(b, p) {
      assert SameLevel(a[p / 2], b[p / 2]);
      SameCurrSnap(a[p / 2], b[p / 2]);
    }
  }

  lemma SameCurrSnap(a: Level, b: Level)
    requires SameLevel(a, b)
    ensures a.curr == b.curr && a.snap == b.snap
  {
  }

  lemma CommitKeepsSame(a: Levels, b: Levels, i: nat, ledger: U32)
    requires 1 <= i < NUM_LEVELS && SameLevels(a, b) && CommitKeeps(a, i, ledger)
    ensures CommitKeeps(b, i, ledger)
  {
    hide LevelShouldSpill, MergeBuckets, Merged, DropKeeps, SameLevels, At, Chain;
    SameAt(a, b, i);
    var e, w := LevelShouldSpill(ledger, i), Commits(a, i, ledger);
    assert w == Commits(b, i, ledger);
    forall k ensures At(w, k) == Merged(Chain(b, k), i, e) || DropKeeps(Chain(b, k), i, e) {
      SameChain(a, b, k);
    }
  }

  lemma {:induction false} KeepsDownSame(a: Levels, b: Levels, i: nat, ledger: U32, protocol: nat, shadows: seq<Bucket>)
    requires i < NUM_LEVELS && |shadows| == (if i == 0 then 0 else 2 * (i - 1))
    requires SameLevels(a, b) && KeepsDown(a, i, ledger, protocol, shadows)
    ensures KeepsDown(b, i, ledger, protocol, shadows)
    decreases i
  {
    hide SameLevels, SpillInto, LevelShouldSpill, CommitKeeps;
    if i > 0 {
      var below := if i == 1 then [] else shadows[..2 * (i - 2)];
      if LevelShouldSpill(ledger, i - 1) {
        SpillIntoSame(a, b, i, ledger, protocol, shadows);
        CommitKeepsSame(a, b, i, ledger);
        var x, y := SpillInto(a, i, ledger, protocol, shadows), SpillInto(b, i, ledger, protocol, shadows);
        if x.Ok? { KeepsDownSame(x.value, y.value, i - 1, ledger, protocol, below); }
      } else {
        KeepsDownSame(a, b, i - 1, ledger, protocol, below);
      }
    }
  }

  lemma SameKeeps(a: Levels, b: Levels, ledger: U32, protocol: nat)
    requires SameLevels(a, b) && KeepsClose(a, ledger, protocol)
    ensures KeepsClose(b, ledger, protocol)
  {
    hide SameLevels, KeepsDown, Youngest;
    SameYoungest(a, b, 18);
    KeepsDownSame(a, b, LAST_LEVEL, ledger, protocol, Youngest(a, 18));
  }

  // ----- runs -----

  /** The protocol and the batch of each closed ledger. */
  function Closings(es: seq<Event>): (cs: seq<(nat, Batch)>)
    ensures |cs| == LedgerCount(es)
  {
    if es == [] then []
    else
      var before, e := Closings(es[..|es| - 1]), es[|es| - 1];
      if e.CloseLedger? then before + [(e.protocol, e.batch)] else before
  }

  lemma EmptySame()
    ensures SameLevels(EmptyLevels, EmptyLevels)
  {
  }

  /** What a list holds, and what its pending merges deliver, depends only on the protocols and
      batches of the closed ledgers: not on when merges finish, nor on when and from what the list is
      restarted. */
  lemma {:induction false} TimingIrrelevant(es: seq<Event>, es': seq<Event>)
    requires LedgerCount(es) < TWO_32 && LedgerCount(es') < TWO_32 && ValidRun(es) && ValidRun(es')
    requires KeepsRun(es) && Closings(es) == Closings(es')
    ensures KeepsRun(es') && StateAfter(es).Ok? && StateAfter(es').Ok?
    ensures SameLevels(StateAfter(es).value, StateAfter(es').value)
    decreases |es| + |es'|
  {
    hide Inv, SameLevels, KeepsClose, AddBatch, RestartFrom, Saved, AllInputsOk;
    RunKeeps(es);
    if es != [] && es[|es| - 1].Restart? {
      var before, e := es[..|es| - 1], es[|es| - 1];
      TimingIrrelevant(before, es');
      RunKeeps(before);
      RestartKeeps(StateAfter(before).value, e.cleared, e.maxVersion, LedgerCount(es), ProtocolAfter(before), LedgerAfter(before));
      SameSym(StateAfter(before).value, StateAfter(es).value);
      SameTrans(StateAfter(es).value, StateAfter(before).value, StateAfter(es').value);
    } else if es' != [] && es'[|es'| - 1].Restart? {
      var before, e := es'[..|es'| - 1], es'[|es'| - 1];
      TimingIrrelevant(es, before);
      RunKeeps(before);
      RestartKeeps(StateAfter(before).value, e.cleared, e.maxVersion, LedgerCount(es'), ProtocolAfter(before), LedgerAfter(before));
      SameTrans(StateAfter(es).value, StateAfter(before).value, StateAfter(es').value);
    } else if es == [] {
      EmptySame();
      assert es' == [];
    } else {
      assert es' != [];
      var x, y, e, e' := es[..|es| - 1], es'[..|es'| - 1], es[|es| - 1], es'[|es'| - 1];
      var n := |Closings(es)| - 1;
      assert Closings(es)[n] == (e.protocol, e.batch) && Closings(es')[n] == (e'.protocol, e'.batch);
      assert Closings(x) == Closings(es)[..n] && Closings(y) == Closings(es')[..n];
      TimingIrrelevant(x, y);
      SameKeeps(StateAfter(x).value, StateAfter(y).value, LedgerCount(es), e.protocol);
      RunKeeps(es');
      AddBatchSame(StateAfter(x).value, StateAfter(y).value, LedgerCount(es), e.protocol, Fresh(e.protocol, e.batch), e.ready, e'.ready);
    }
  }
}
