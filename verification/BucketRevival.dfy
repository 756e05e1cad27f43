/** A run of the list on which a merge of the old kind meets new shadows: an entry that was
    created and deleted twice comes back. */
module BucketRevival {
  import opened Outcomes
  import opened LedgerKeys
  import opened Buckets
  import opened Lifecycle
  import opened BucketMerge
  import opened BucketFresh
  import opened Bits
  import opened Schedule
  import opened BucketLevels
  import opened BucketAlgebra
  import opened BucketRuns
  import opened BucketSafety
  import opened BucketTheorems

  const LAST: nat := 32
  const OLD_PROTOCOL: nat := 10

  // ----- the run: one key, created and deleted before protocol 12 and again after -----

  function ProtocolAt(n: nat): nat {
    if n < 22 then OLD_PROTOCOL else FIRST_PROTOCOL_SHADOWS_REMOVED
  }

  function BatchAt(n: nat, k: LedgerKey, x: Body, y: Body): Batch {
    if n == 1 then Batch([LedgerEntry(k, x)], [], [])
    else if n == 22 then Batch([LedgerEntry(k, y)], [], [])
    else if n == 18 || n == 24 then Batch([], [], [k])
    else Batch([], [], [])
  }

  function Story(n: nat, k: LedgerKey, x: Body, y: Body): (es: seq<Event>)
    ensures |es| == n
  {
    if n == 0 then [] else Story(n - 1, k, x, y) + [CloseLedger(ProtocolAt(n), BatchAt(n, k, x, y), {1, 2})]
  }

  function LedgerAt(n: nat, k: LedgerKey, x: Body, y: Body): Ledger {
    if 1 <= n < 18 then map[k := x] else if 22 <= n < 24 then map[k := y] else map[]
  }

  lemma BatchCloses(n: nat, k: LedgerKey, x: Body, y: Body)
    requires n > 0
    ensures ValidKeys(BatchAt(n, k, x, y)) && CreatesNew(BatchAt(n, k, x, y), LedgerAt(n - 1, k, x, y))
    ensures Closed(LedgerAt(n - 1, k, x, y), BatchAt(n, k, x, y)) == LedgerAt(n, k, x, y)
  {
    var b, m := BatchAt(n, k, x, y), LedgerAt(n - 1, k, x, y);
    var m' := LedgerAt(n, k, x, y);
    if |b.init| == 1 {
      assert b.init[1..] == [];
      assert Put(m, b.init) == m[k := b.init[0].body] == m';
    }
    if |b.dead| == 1 {
      assert b.dead[1..] == [];
      assert Erase(m, b.dead) == m - {k} == m';
    }
  }

  lemma {:induction false} StoryIsValid(n: nat, k: LedgerKey, x: Body, y: Body)
    ensures var es := Story(n, k, x, y);
      ValidRun(es) && LedgerCount(es) == n && LedgerAfter(es) == LedgerAt(n, k, x, y)
      && ProtocolAfter(es) == if n == 0 then 0 else ProtocolAt(n)
  {
    hide Closed, ValidKeys, CreatesNew, BatchAt;
    if n == 0 {
      assert Story(0, k, x, y) == [] && LedgerAt(0, k, x, y) == map[];
    } else {
      StoryIsValid(n - 1, k, x, y);
      var es := Story(n, k, x, y);
      assert es[..|es| - 1] == Story(n - 1, k, x, y);
      BatchCloses(n, k, x, y);
    }
  }

  // ----- what a bucket can hold in this run -----

  datatype Mark = Silent | Lived | Gone | Made

  /** Is the bucket from protocol 12, and what does it say of the key? */
  datatype Cell = Cell(recent: bool, mark: Mark)

  const BLANK := Cell(false, Silent)

  function Said(m: Mark, x: Body, y: Body): Slot {
    match m
    case Silent => Absent
    case Lived => Live(x)
    case Gone => Dead
    case Made => Init(y)
  }

  function One(c: Cell, k: LedgerKey, x: Body, y: Body): Bucket {
    Bucket(if c.recent then Some(FIRST_PROTOCOL_SHADOWS_REMOVED) else None,
           if c.mark.Silent? then [] else [EntryOf(k, Said(c.mark, x, y))])
  }

  function MarkAt(n: nat): Mark {
    if n == 1 then Lived else if n == 22 then Made else if n == 18 || n == 24 then Gone else Silent
  }

  function CellAt(n: nat): Cell { Cell(n >= 22, MarkAt(n)) }

  /** Merge two cells; `hidden` if a shadow speaks of the key. */
  function MergedCell(o: Cell, n: Cell, hidden: bool): Cell {
    Cell(n.recent, if hidden && !n.recent then Silent
                   else if n.mark.Silent? then o.mark
                   else if o.mark.Made? && n.mark.Gone? then Silent
                   else n.mark)
  }

  predicate MergeableCells(o: Cell, n: Cell) {
    && (o.recent ==> n.recent) && (o.mark.Made? ==> n.recent) && (n.mark.Made? ==> n.recent)
    && (n.mark.Made? ==> o.mark.Silent?) && !(o.mark.Made? && n.mark.Lived?)
  }

  lemma FindOne(c: Cell, k: LedgerKey, x: Body, y: Body, j: LedgerKey)
    ensures At(One(c, k, x, y), j) == (if j == k then Said(c.mark, x, y) else Absent)
    ensures Sorted(One(c, k, x, y).entries)
  {
    if !c.mark.Silent? { FindSingle(EntryOf(k, Said(c.mark, x, y)), j); }
  }

  /** Cells as the buckets they stand for. */
  function AsBuckets(cs: seq<Cell>, k: LedgerKey, x: Body, y: Body): (bs: seq<Bucket>)
    ensures |bs| == |cs|
  {
    seq(|cs|, i requires 0 <= i < |cs| => One(cs[i], k, x, y))
  }

  predicate Speaks(cs: seq<Cell>) {
    cs != [] && (!cs[0].mark.Silent? || Speaks(cs[1..]))
  }

  lemma {:induction false} SpeaksIsShadowed(cs: seq<Cell>, k: LedgerKey, x: Body, y: Body)
    ensures Shadowed(AsBuckets(cs, k, x, y), k) <==> Speaks(cs)
  {
    if cs != [] {
      SpeaksIsShadowed(cs[1..], k, x, y);
      FindOne(cs[0], k, x, y, k);
      assert AsBuckets(cs, k, x, y)[1..] == AsBuckets(cs[1..], k, x, y);
    }
  }

  lemma {:induction false} VersionOfCells(o: Cell, n: Cell, cs: seq<Cell>, k: LedgerKey, x: Body, y: Body)
    requires o.recent ==> n.recent
    ensures MergeVersion(One(o, k, x, y), One(n, k, x, y), AsBuckets(cs, k, x, y)) == if n.recent then FIRST_PROTOCOL_SHADOWS_REMOVED else 0
  {
    if cs != [] {
      VersionOfCells(o, n, cs[..|cs| - 1], k, x, y);
      assert AsBuckets(cs, k, x, y)[..|cs| - 1] == AsBuckets(cs[..|cs| - 1], k, x, y);
    }
  }

  lemma MergeCells(v: nat, o: Cell, n: Cell, cs: seq<Cell>, k: LedgerKey, x: Body, y: Body)
    requires MergeableCells(o, n) && (n.recent ==> v >= FIRST_PROTOCOL_SHADOWS_REMOVED && cs == [])
    ensures MergeBuckets(v, One(o, k, x, y), One(n, k, x, y), AsBuckets(cs, k, x, y), true) == Ok(One(MergedCell(o, n, Speaks(cs)), k, x, y))
  {
    hide MergeEntries, MergeVersion, Sorted, Shadowed, AsBuckets, One;
    var a, b, shadows := One(o, k, x, y), One(n, k, x, y), AsBuckets(cs, k, x, y);
    VersionOfCells(o, n, cs, k, x, y);
    SpeaksIsShadowed(cs, k, x, y);
    FindOne(o, k, x, y, k);
    FindOne(n, k, x, y, k);
    var version := MergeVersion(a, b, shadows);
    var mode := ModeFor(version, shadows, true);
    MergeOkIff(a.entries, b.entries, mode);
    forall j ensures
      && (Find(a.entries, j).Init? || Find(b.entries, j).Init? ==> version >= FIRST_PROTOCOL_SUPPORTING_INITENTRY)
      && !Clash(Find(a.entries, j), Find(b.entries, j))
    {
      FindOne(o, k, x, y, j);
      FindOne(n, k, x, y, j);
    }
    var r, c := MergeEntries(a.entries, b.entries, mode).value, MergedCell(o, n, Speaks(cs));
    MergeSorted(a.entries, b.entries, mode);
    FindOne(c, k, x, y, k);
    forall j ensures Find(r, j) == Find(One(c, k, x, y).entries, j) {
      FindOne(o, k, x, y, j);
      FindOne(n, k, x, y, j);
      FindOne(c, k, x, y, j);
      MergeSlots(a.entries, b.entries, mode, j);
    }
    SameSlotsSameEntries(r, One(c, k, x, y).entries);
    MetaOfOne(c, k, x, y);
  }

  lemma MetaOfOne(c: Cell, k: LedgerKey, x: Body, y: Body)
    ensures One(c, k, x, y).meta == MetaFor(if c.recent then FIRST_PROTOCOL_SHADOWS_REMOVED else 0)
  {
  }

  lemma FreshOne(n: nat, k: LedgerKey, x: Body, y: Body)
    ensures Fresh(ProtocolAt(n), BatchAt(n, k, x, y)) == One(CellAt(n), k, x, y)
  {
    var b, c := BatchAt(n, k, x, y), CellAt(n);
    var es := Collected(UsesInit(ProtocolAt(n)), b);
    assert es == One(c, k, x, y).entries;
    if es != [] { assert es[1..] == [] && SortEntries(es) == Insert(es[0], []) == es; }
  }

  // ----- the list, as three levels of cells -----

  datatype Cells = Cells(c0: Cell, s0: Cell, f1: Option<Cell>, c1: Cell, s1: Cell, f2: Option<Cell>, c2: Cell, s2: Cell)

  function Done(f: Option<Cell>, k: LedgerKey, x: Body, y: Body): FutureBucket {
    match f
    case None => Clear
    case Some(c) => LiveOutput(One(c, k, x, y))
  }

  /** The levels, with the given merges pending on levels 1 to 3. */
  function Listed(st: Cells, f1: FutureBucket, f2: FutureBucket, f3: FutureBucket, k: LedgerKey, x: Body, y: Body): Levels {
    Line(One(st.c0, k, x, y), One(st.s0, k, x, y), One(st.c1, k, x, y), One(st.s1, k, x, y),
         One(st.c2, k, x, y), One(st.s2, k, x, y), f1, f2, f3)
  }

  function Line(c0: Bucket, s0: Bucket, c1: Bucket, s1: Bucket, c2: Bucket, s2: Bucket,
                f1: FutureBucket, f2: FutureBucket, f3: FutureBucket): Levels
  {
    [Level(c0, s0, Clear), Level(c1, s1, f1), Level(c2, s2, f2), Level(EmptyBucket, EmptyBucket, f3),
     EmptyLevel, EmptyLevel, EmptyLevel, EmptyLevel, EmptyLevel, EmptyLevel, EmptyLevel]
  }

  lemma LineIs(c0: Bucket, s0: Bucket, c1: Bucket, s1: Bucket, c2: Bucket, s2: Bucket,
               f1: FutureBucket, f2: FutureBucket, f3: FutureBucket)
    ensures var l := Line(c0, s0, c1, s1, c2, s2, f1, f2, f3);
      l[0] == Level(c0, s0, Clear) && l[1] == Level(c1, s1, f1) && l[2] == Level(c2, s2, f2) && l[3] == Level(EmptyBucket, EmptyBucket, f3)
  {
  }

  lemma LineTakes(c0: Bucket, s0: Bucket, c1: Bucket, s1: Bucket, c2: Bucket, s2: Bucket,
                  f1: FutureBucket, f2: FutureBucket, f3: FutureBucket, b: Bucket)
    ensures Line(c0, s0, c1, s1, c2, s2, f1, f2, f3)[0 := Level(b, s0, Clear)] == Line(b, s0, c1, s1, c2, s2, f1, f2, f3)
  {
  }

  lemma LineSpills0(c0: Bucket, s0: Bucket, c1: Bucket, s1: Bucket, c2: Bucket, s2: Bucket,
                    f1: FutureBucket, f2: FutureBucket, f3: FutureBucket, w: Bucket, f: FutureBucket)
    ensures Line(c0, s0, c1, s1, c2, s2, f1, f2, f3)[0 := Level(EmptyBucket, c0, Clear)][1 := Level(w, s1, f)]
      == Line(EmptyBucket, c0, w, s1, c2, s2, f, f2, f3)
  {
  }

  lemma LineSpills1(c0: Bucket, s0: Bucket, c1: Bucket, s1: Bucket, c2: Bucket, s2: Bucket,
                    f1: FutureBucket, f2: FutureBucket, f3: FutureBucket, w: Bucket, f: FutureBucket)
    ensures Line(c0, s0, c1, s1, c2, s2, f1, f2, f3)[1 := Level(EmptyBucket, c1, f1)][2 := Level(w, s2, f)]
      == Line(c0, s0, EmptyBucket, c1, w, s2, f1, f, f3)
  {
  }

  lemma BlankIsEmpty(k: LedgerKey, x: Body, y: Body)
    ensures One(BLANK, k, x, y) == EmptyBucket
  {
  }

  lemma VersionOfOne(c: Cell, k: LedgerKey, x: Body, y: Body)
    ensures Version(One(c, k, x, y)) >= FIRST_PROTOCOL_SHADOWS_REMOVED <==> c.recent
  {
  }

  lemma DoneCommits(curr: Cell, snap: Bucket, f: Option<Cell>, k: LedgerKey, x: Body, y: Body)
    ensures Level(One(curr, k, x, y), snap, Done(f, k, x, y)).Committed() == Ok(Level(One(Delivered(f, curr), k, x, y), snap, Clear))
  {
  }

  lemma RecentShows(o: Cell, n: Cell, hidden: bool)
    requires n.recent
    ensures MergedCell(o, n, hidden) == MergedCell(o, n, false)
  {
  }

  function Delivered(f: Option<Cell>, curr: Cell): Cell {
    if f.Some? then f.value else curr
  }

  function Snap2(st: Cells, n: nat): Cells {
    if n % 32 == 0 then st.(s2 := st.c2, c2 := BLANK) else st
  }

  function Base2(st: Cells, n: nat): Cell {
    if (n + 8) % 32 == 0 then BLANK else Delivered(st.f2, st.c2)
  }

  function Spill1(st: Cells, n: nat): Cells {
    if n % 8 == 0 then
      st.(s1 := st.c1, c1 := BLANK, c2 := Delivered(st.f2, st.c2),
          f2 := Some(MergedCell(Base2(st, n), st.c1, !st.c0.mark.Silent? || !st.s0.mark.Silent?)))
    else st
  }

  function Base1(st: Cells, n: nat): Cell {
    if (n + 2) % 8 == 0 then BLANK else Delivered(st.f1, st.c1)
  }

  function Spill0(st: Cells, n: nat): Cells {
    if n % 2 == 0 then
      st.(s0 := st.c0, c0 := BLANK, c1 := Delivered(st.f1, st.c1), f1 := Some(MergedCell(Base1(st, n), st.c0, false)))
    else st
  }

  function Take(st: Cells, n: nat): Cells {
    st.(c0 := MergedCell(st.c0, CellAt(n), false))
  }

  function Tick(st: Cells, n: nat): Cells {
    Take(Spill0(Spill1(Snap2(st, n), n), n), n)
  }

  predicate TickOk(st: Cells, n: nat) {
    var a := Snap2(st, n);
    var b := Spill1(a, n);
    var c := Spill0(b, n);
    && (st.c1.recent || st.c0.recent ==> n > 22)
    && (n % 8 == 0 ==> MergeableCells(Base2(a, n), a.c1))
    && (n % 2 == 0 ==> MergeableCells(Base1(b, n), b.c0))
    && MergeableCells(c.c0, CellAt(n))
  }

  /** The list after each ledger of the run. */
  function After(n: nat): Cells {
    Cells(
      Cell(n >= 22, if n == 1 then Lived else if 22 <= n < 24 then Made else if 18 <= n < 20 || 24 <= n < 26 then Gone else Silent),
      Cell(n >= 24, if 2 <= n < 4 then Lived else if 24 <= n < 26 then Made else if 20 <= n < 22 || 26 <= n < 28 then Gone else Silent),
      if n < 2 then None
      else Some(Cell(n >= 24, if n < 6 then Lived else if 24 <= n < 26 then Made else if 20 <= n < 22 then Gone else Silent)),
      Cell(n >= 26, if 4 <= n < 8 then Lived else if 26 <= n < 28 then Made else if 22 <= n < 24 then Gone else Silent),
      Cell(n >= 32, if 8 <= n < 16 then Lived else if 24 <= n < 32 then Gone else Silent),
      if n < 8 then None else Some(Cell(n >= 32, if n < 24 then Lived else Silent)),
      Cell(false, if 16 <= n < 32 then Lived else Silent),
      Cell(false, if n >= 32 then Lived else Silent))
  }

  lemma Ticks(n: nat)
    requires 0 < n <= LAST
    ensures TickOk(After(n - 1), n) && Tick(After(n - 1), n) == After(n)
  {
  }

  // ----- the cells are the list -----

  lemma {:induction false} MultipleOf2(n: nat)
    ensures Multiple(n, 2) <==> n % 2 == 0
  {
    if n >= 2 { MultipleOf2(n - 2); }
  }

  lemma {:induction false} MultipleOf8(n: nat)
    ensures Multiple(n, 8) <==> n % 8 == 0
  {
    if n >= 8 { MultipleOf8(n - 8); }
  }

  lemma {:induction false} MultipleOf32(n: nat)
    ensures Multiple(n, 32) <==> n % 32 == 0
  {
    if n >= 32 { MultipleOf32(n - 32); }
  }

  lemma Halves()
    ensures LevelHalf(0) == 2 && LevelHalf(1) == 8 && LevelHalf(2) == 32 && LevelHalf(3) == 128
  {
    hide LevelHalf;
    LevelFacts(0);
    LevelFacts(1);
    LevelFacts(2);
    LevelFacts(3);
  }

  /** Which levels spill. */
  lemma Spills(n: nat)
    requires 0 < n <= LAST
    ensures LevelShouldSpill(n, 0) <==> n % 2 == 0
    ensures LevelShouldSpill(n, 1) <==> n % 8 == 0
    ensures LevelShouldSpill(n, 2) <==> n % 32 == 0
  {
    hide LevelHalf, LevelShouldSpill, Multiple;
    Halves();
    SpillIff(n, 0);
    SpillIff(n, 1);
    SpillIff(n, 2);
    MultipleOf2(n);
    MultipleOf8(n);
    MultipleOf32(n);
  }

  lemma {:induction false} SpillsNot(n: nat, i: nat)
    requires 0 < n <= LAST && 3 <= i < NUM_LEVELS
    ensures LevelHalf(i) >= 128 && !LevelShouldSpill(n, i)
  {
    hide LevelHalf, LevelShouldSpill;
    Halves();
    SpillIff(n, i);
    if i > 3 {
      SpillsNot(n, i - 1);
      LevelFacts(i);
    }
  }

  /** Which merges leave out the curr. */
  lemma Empties(n: nat)
    requires 0 < n <= LAST
    ensures n % 2 == 0 ==> (ShouldMergeWithEmptyCurr(n, 1) <==> (n + 2) % 8 == 0)
    ensures n % 8 == 0 ==> (ShouldMergeWithEmptyCurr(n, 2) <==> (n + 8) % 32 == 0)
  {
    hide LevelHalf, ShouldMergeWithEmptyCurr, Round;
    Halves();
    EmptyCurrIff(n, 1);
    EmptyCurrIff(n, 2);
    MultipleOf2(n);
    MultipleOf8(n);
    MultipleOf8(n + 2);
    MultipleOf32(n + 8);
  }

  lemma {:induction false} SpillQuiet(levels: Levels, i: nat, n: nat, protocol: nat, shadows: seq<Bucket>)
    requires 3 <= i < NUM_LEVELS && 0 < n <= LAST && |shadows| == 2 * (i - 1)
    ensures SpillDown(levels, i, n, protocol, shadows) == SpillDown(levels, 3, n, protocol, shadows[..4])
    decreases i
  {
    hide SpillInto, LevelShouldSpill;
    if i == 3 {
      assert shadows[..4] == shadows;
    } else {
      SpillsNot(n, i - 1);
      SpillQuiet(levels, i - 1, n, protocol, shadows[..2 * (i - 2)]);
      assert shadows[..2 * (i - 2)][..4] == shadows[..4];
    }
  }

  /** The future is the finished merge, or one that will give the same. */
  predicate Stands(future: FutureBucket, f: Option<Cell>, k: LedgerKey, x: Body, y: Body) {
    future == Done(f, k, x, y) || (f.Some? && future.LiveInputs? && future.Resolve() == Ok(One(f.value, k, x, y)))
  }

  /** A spill into level `i`, in parts. */
  lemma SpillsAs(levels: Levels, i: nat, ledger: U32, protocol: nat, shadows: seq<Bucket>, w: Bucket, f: FutureBucket)
    requires 1 <= i < LAST_LEVEL
    requires levels[i].Committed() == Ok(Level(w, levels[i].snap, Clear))
    requires f == LiveInputs(if ShouldMergeWithEmptyCurr(ledger, i) then EmptyBucket else w, levels[i - 1].curr,
                             if Version(levels[i - 1].curr) >= FIRST_PROTOCOL_SHADOWS_REMOVED then [] else shadows, protocol, true)
    ensures SpillInto(levels, i, ledger, protocol, shadows) ==
      Ok(levels[i - 1 := levels[i - 1].Snapped()][i := Level(w, levels[i].snap, f)])
  {
    hide ShouldMergeWithEmptyCurr, MergeBuckets;
  }

  lemma TickSnaps(st: Cells, n: nat, protocol: nat, shadows: seq<Bucket>, f1: FutureBucket, f2: FutureBucket, k: LedgerKey, x: Body, y: Body)
    returns (f3: FutureBucket)
    requires 0 < n <= LAST
    ensures var levels := Listed(st, f1, f2, Clear, k, x, y);
      (if n % 32 == 0 then SpillInto(levels, 3, n, protocol, shadows) else Ok(levels)) == Ok(Listed(Snap2(st, n), f1, f2, f3, k, x, y))
    ensures n < LAST ==> f3 == Clear
  {
    hide ShouldMergeWithEmptyCurr;
    var levels := Listed(st, f1, f2, Clear, k, x, y);
    f3 := if n % 32 == 0 then levels[3].Prepared(3, n, protocol, One(st.c2, k, x, y), shadows).next else Clear;
    var snapped := levels[2 := levels[2].Snapped()][3 := levels[3].(next := f3)];
    assert n % 32 == 0 ==> snapped == Listed(Snap2(st, n), f1, f2, f3, k, x, y);
  }

  lemma TickSpills1(st: Cells, n: nat, f1: FutureBucket, f3: FutureBucket, k: LedgerKey, x: Body, y: Body)
    returns (f2: FutureBucket)
    requires 0 < n <= LAST && (n % 8 == 0 ==> MergeableCells(Base2(st, n), st.c1)) && (st.c1.recent ==> n > 22)
    ensures var levels := Listed(st, f1, Done(st.f2, k, x, y), f3, k, x, y);
      (if n % 8 == 0 then SpillInto(levels, 2, n, ProtocolAt(n), AsBuckets([st.c0, st.s0], k, x, y)) else Ok(levels))
      == Ok(Listed(Spill1(st, n), f1, f2, f3, k, x, y))
    ensures Stands(f2, Spill1(st, n).f2, k, x, y)
  {
    hide ShouldMergeWithEmptyCurr, MergeBuckets, MergeableCells, AsBuckets, Speaks, SpillInto, MergedCell, One, Line, Done;
    var levels := Listed(st, f1, Done(st.f2, k, x, y), f3, k, x, y);
    if n % 8 == 0 {
      Empties(n);
      var cs := if st.c1.recent then [] else [st.c0, st.s0];
      MergeCells(ProtocolAt(n), Base2(st, n), st.c1, cs, k, x, y);
      SpeaksEither(st.c0, st.s0);
      AboveNothing(k, x, y);
      BlankIsEmpty(k, x, y);
      VersionOfOne(st.c1, k, x, y);
      if st.c1.recent { RecentShows(Base2(st, n), st.c1, !st.c0.mark.Silent? || !st.s0.mark.Silent?); }
      f2 := LiveInputs(One(Base2(st, n), k, x, y), One(st.c1, k, x, y), AsBuckets(cs, k, x, y), ProtocolAt(n), true);
      var w := One(Delivered(st.f2, st.c2), k, x, y);
      DoneCommits(st.c2, levels[2].snap, st.f2, k, x, y);
      LineIs(One(st.c0, k, x, y), One(st.s0, k, x, y), One(st.c1, k, x, y), One(st.s1, k, x, y),
             One(st.c2, k, x, y), One(st.s2, k, x, y), f1, Done(st.f2, k, x, y), f3);
      LineSpills1(One(st.c0, k, x, y), One(st.s0, k, x, y), One(st.c1, k, x, y), One(st.s1, k, x, y),
                  One(st.c2, k, x, y), One(st.s2, k, x, y), f1, Done(st.f2, k, x, y), f3, w, f2);
      SpillsAs(levels, 2, n, ProtocolAt(n), AsBuckets([st.c0, st.s0], k, x, y), w, f2);
    } else {
      f2 := Done(st.f2, k, x, y);
    }
  }

  lemma SpeaksEither(a: Cell, b: Cell)
    ensures Speaks([a, b]) <==> !a.mark.Silent? || !b.mark.Silent?
    ensures !Speaks([])
  {
    var cs := [a, b];
    assert cs[1..] == [b] && [b][1..] == [] && (Speaks([b]) <==> !b.mark.Silent?);
  }

  lemma AboveNothing(k: LedgerKey, x: Body, y: Body)
    ensures AsBuckets([], k, x, y) == []
  {
  }

  lemma TickSpills0(st: Cells, n: nat, f2: FutureBucket, f3: FutureBucket, k: LedgerKey, x: Body, y: Body)
    returns (f1: FutureBucket)
    requires 0 < n <= LAST && (n % 2 == 0 ==> MergeableCells(Base1(st, n), st.c0)) && (st.c0.recent ==> n > 22)
    ensures var levels := Listed(st, Done(st.f1, k, x, y), f2, f3, k, x, y);
      (if n % 2 == 0 then SpillInto(levels, 1, n, ProtocolAt(n), []) else Ok(levels))
      == Ok(Listed(Spill0(st, n), f1, f2, f3, k, x, y))
    ensures Stands(f1, Spill0(st, n).f1, k, x, y)
  {
    hide ShouldMergeWithEmptyCurr, MergeBuckets, MergeableCells, AsBuckets, Speaks, SpillInto, MergedCell, One, Line, Done;
    var levels := Listed(st, Done(st.f1, k, x, y), f2, f3, k, x, y);
    if n % 2 == 0 {
      Empties(n);
      MergeUnshadowed(ProtocolAt(n), Base1(st, n), st.c0, k, x, y);
      BlankIsEmpty(k, x, y);
      f1 := LiveInputs(One(Base1(st, n), k, x, y), One(st.c0, k, x, y), [], ProtocolAt(n), true);
      var w := One(Delivered(st.f1, st.c1), k, x, y);
      DoneCommits(st.c1, levels[1].snap, st.f1, k, x, y);
      LineIs(One(st.c0, k, x, y), One(st.s0, k, x, y), One(st.c1, k, x, y), One(st.s1, k, x, y),
             One(st.c2, k, x, y), One(st.s2, k, x, y), Done(st.f1, k, x, y), f2, f3);
      LineSpills0(One(st.c0, k, x, y), One(st.s0, k, x, y), One(st.c1, k, x, y), One(st.s1, k, x, y),
                  One(st.c2, k, x, y), One(st.s2, k, x, y), Done(st.f1, k, x, y), f2, f3, w, f1);
      SpillsAs(levels, 1, n, ProtocolAt(n), [], w, f1);
    } else {
      f1 := Done(st.f1, k, x, y);
    }
  }

  lemma AbsorbsAs(levels: Levels, ledger: U32, protocol: nat, batch: Bucket, r: Bucket)
    requires MergeBuckets(protocol, levels[0].curr, batch, [], true) == Ok(r)
    ensures AbsorbFresh(levels, ledger, protocol, batch) == Ok(levels[0 := Level(r, levels[0].snap, Clear)])
  {
    hide MergeBuckets;
  }

  lemma MergeUnshadowed(v: nat, o: Cell, n: Cell, k: LedgerKey, x: Body, y: Body)
    requires MergeableCells(o, n) && (n.recent ==> v >= FIRST_PROTOCOL_SHADOWS_REMOVED)
    ensures MergeBuckets(v, One(o, k, x, y), One(n, k, x, y), [], true) == Ok(One(MergedCell(o, n, false), k, x, y))
  {
    hide MergeBuckets, MergeableCells, AsBuckets, Speaks, One, MergedCell;
    MergeCells(v, o, n, [], k, x, y);
    SpeaksEither(o, n);
    AboveNothing(k, x, y);
  }

  lemma RecentWhen(n: nat)
    ensures CellAt(n).recent <==> n >= 22
  {
  }

  lemma TickTakes(st: Cells, n: nat, f1: FutureBucket, f2: FutureBucket, f3: FutureBucket, k: LedgerKey, x: Body, y: Body)
    requires 0 < n <= LAST && MergeableCells(st.c0, CellAt(n))
    ensures AbsorbFresh(Listed(st, f1, f2, f3, k, x, y), n, ProtocolAt(n), One(CellAt(n), k, x, y))
      == Ok(Listed(Take(st, n), f1, f2, f3, k, x, y))
  {
    hide MergeBuckets, MergeableCells, One, MergedCell, CellAt, AbsorbFresh, Line;
    RecentWhen(n);
    MergeUnshadowed(ProtocolAt(n), st.c0, CellAt(n), k, x, y);
    var levels := Listed(st, f1, f2, f3, k, x, y);
    var c := One(MergedCell(st.c0, CellAt(n), false), k, x, y);
    LineIs(One(st.c0, k, x, y), One(st.s0, k, x, y), One(st.c1, k, x, y), One(st.s1, k, x, y),
           One(st.c2, k, x, y), One(st.s2, k, x, y), f1, f2, f3);
    LineTakes(One(st.c0, k, x, y), One(st.s0, k, x, y), One(st.c1, k, x, y), One(st.s1, k, x, y),
              One(st.c2, k, x, y), One(st.s2, k, x, y), f1, f2, f3, c);
    AbsorbsAs(levels, n, ProtocolAt(n), One(CellAt(n), k, x, y), c);
  }

  lemma {:induction false} NothingReady(levels: Levels, i: nat)
    requires 3 <= i <= NUM_LEVELS
    ensures ResolveFrom(levels, i, {1, 2}) == Ok(levels)
    decreases NUM_LEVELS - i
  {
    hide MergeBuckets;
    if i < NUM_LEVELS { NothingReady(levels, i + 1); }
  }

  lemma TickResolves(st: Cells, f1: FutureBucket, f2: FutureBucket, f3: FutureBucket, k: LedgerKey, x: Body, y: Body)
    requires Stands(f1, st.f1, k, x, y) && Stands(f2, st.f2, k, x, y)
    ensures ResolveFrom(Listed(st, f1, f2, f3, k, x, y), 0, {1, 2})
      == Ok(Listed(st, Done(st.f1, k, x, y), Done(st.f2, k, x, y), f3, k, x, y))
  {
    hide MergeBuckets;
    var levels := Listed(st, f1, f2, f3, k, x, y);
    var d1, d2 := Done(st.f1, k, x, y), Done(st.f2, k, x, y);
    var levels1, levels2 := Listed(st, d1, f2, f3, k, x, y), Listed(st, d1, d2, f3, k, x, y);
    assert levels[1 := levels[1].(next := d1)] == levels1 && levels1[2 := levels1[2].(next := d2)] == levels2;
    NothingReady(levels2, 3);
    assert ResolveFrom(levels1, 2, {1, 2}) == Ok(levels2);
    assert ResolveFrom(levels, 1, {1, 2}) == Ok(levels2);
  }

  /** The levels that may spill, one after the other. */
  lemma SpillsOf(levels: Levels, n: nat, protocol: nat, shadows: seq<Bucket>)
    requires 0 < n <= LAST && |shadows| == 18
    ensures var a := if n % 32 == 0 then SpillInto(levels, 3, n, protocol, shadows[..4]) else Ok(levels);
      a.Ok? ==>
      var b := if n % 8 == 0 then SpillInto(a.value, 2, n, protocol, shadows[..2]) else a;
      b.Ok? ==>
      var c := if n % 2 == 0 then SpillInto(b.value, 1, n, protocol, []) else b;
      c.Ok? ==> SpillDown(levels, LAST_LEVEL, n, protocol, shadows) == c
  {
    hide SpillInto, LevelShouldSpill;
    Spills(n);
    SpillQuiet(levels, LAST_LEVEL, n, protocol, shadows);
    assert shadows[..4][..2] == shadows[..2] && shadows[..2][..0] == [];
  }

  lemma ShadowsOf(st: Cells, f1: FutureBucket, f2: FutureBucket, f3: FutureBucket, k: LedgerKey, x: Body, y: Body)
    ensures Youngest(Listed(st, f1, f2, f3, k, x, y), 18)[..2] == AsBuckets([st.c0, st.s0], k, x, y)
  {
  }

  /** One ledger of the run, on the list. */
  lemma TickIs(st: Cells, n: nat, k: LedgerKey, x: Body, y: Body) returns (f3: FutureBucket)
    requires 0 < n <= LAST && TickOk(st, n)
    ensures var st' := Tick(st, n);
      AddBatch(Listed(st, Done(st.f1, k, x, y), Done(st.f2, k, x, y), Clear, k, x, y), n, ProtocolAt(n), One(CellAt(n), k, x, y), {1, 2})
      == Ok(Listed(st', Done(st'.f1, k, x, y), Done(st'.f2, k, x, y), f3, k, x, y))
    ensures n < LAST ==> f3 == Clear
  {
    hide Listed, SpillDown, SpillInto, AbsorbFresh, ResolveFrom, Done, One, MergedCell, MergeableCells, Base1, Base2, Youngest, CellAt, AsBuckets, ProtocolAt, Stands;
    var d1, d2, protocol := Done(st.f1, k, x, y), Done(st.f2, k, x, y), ProtocolAt(n);
    var levels := Listed(st, d1, d2, Clear, k, x, y);
    ShadowsOf(st, d1, d2, Clear, k, x, y);
    SpillsOf(levels, n, protocol, Youngest(levels, 18));
    var a := Snap2(st, n);
    f3 := TickSnaps(st, n, protocol, Youngest(levels, 18)[..4], d1, d2, k, x, y);
    var b := Spill1(a, n);
    var f2 := TickSpills1(a, n, d1, f3, k, x, y);
    var c := Spill0(b, n);
    var f1 := TickSpills0(b, n, f2, f3, k, x, y);
    TickTakes(c, n, f1, f2, f3, k, x, y);
    TickResolves(Take(c, n), f1, f2, f3, k, x, y);
  }

  lemma {:induction false} StoryIs(n: nat, k: LedgerKey, x: Body, y: Body) returns (f3: FutureBucket)
    requires n <= LAST
    ensures LedgerCount(Story(n, k, x, y)) == n
    ensures var st := After(n);
      StateAfter(Story(n, k, x, y)) == Ok(Listed(st, Done(st.f1, k, x, y), Done(st.f2, k, x, y), f3, k, x, y))
    ensures n < LAST ==> f3 == Clear
  {
    hide Listed, Done, After, TickOk, Tick, AddBatch, One, CellAt, Fresh, BatchAt, ProtocolAt;
    StoryIsValid(n, k, x, y);
    if n == 0 {
      f3 := Clear;
      StoryStarts(k, x, y);
    } else {
      f3 := StoryIs(n - 1, k, x, y);
      var es := Story(n, k, x, y);
      assert es[..|es| - 1] == Story(n - 1, k, x, y);
      Ticks(n);
      FreshOne(n, k, x, y);
      f3 := TickIs(After(n - 1), n, k, x, y);
    }
  }

  lemma StoryStarts(k: LedgerKey, x: Body, y: Body)
    ensures var st := After(0); EmptyLevels == Listed(st, Done(st.f1, k, x, y), Done(st.f2, k, x, y), Clear, k, x, y)
  {
  }

  lemma {:induction false} SilentReads(levels: Levels, p: nat, q: nat)
    requires p <= q <= 22 && forall j :: p <= j < q ==> BucketAt(levels, j).entries == []
    ensures ReadFrom(levels, p) == ReadFrom(levels, q)
    decreases q - p
  {
    if p < q { SilentReads(levels, p + 1, q); }
  }

  /** The old merge at ledger 24 drops the tombstone of ledger 18 for the creation of ledger 22;
      when that is deleted in turn, creation and deletion vanish, and at ledger 32 the list holds
      the entry of ledger 1 again. So the run is not a safe one. */
  lemma MixedRunRevives(k: LedgerKey, x: Body, y: Body)
    ensures var es := Story(LAST, k, x, y);
      && LedgerCount(es) == LAST && ValidRun(es) && LedgerAfter(es) == map[]
      && StateAfter(es).Ok? && ReadFrom(StateAfter(es).value, 0) == map[k := x]
      && !KeepsRun(es) && !KeptRun(es) && !SafeRun(es)
  {
    hide ReadFrom, After, SafeRun, KeepsRun, KeptRun, AllSteady, StateAfter;
    var es := Story(LAST, k, x, y);
    StoryIsValid(LAST, k, x, y);
    var f3 := StoryIs(LAST, k, x, y);
    var levels := StateAfter(es).value;
    StoryEnds(levels, f3, k, x, y);
    assert k in map[k := x];
    RunKeptIff(es);
    if SafeRun(es) { SafeRunKeeps(es); }
    if KeepsRun(es) { LedgerRefinement(es); }
  }

  lemma StoryEnds(levels: Levels, f3: FutureBucket, k: LedgerKey, x: Body, y: Body)
    requires var st := After(LAST); levels == Listed(st, Done(st.f1, k, x, y), Done(st.f2, k, x, y), f3, k, x, y)
    ensures ReadFrom(levels, 0) == map[k := x]
  {
    hide Done, ReadFrom;
    SilentReads(levels, 6, 22);
    SilentReads(levels, 0, 5);
    var es := BucketAt(levels, 5).entries;
    assert es == [LiveEntry(k, x)] && es[1..] == [];
    ReadsAt(levels, 5);
    ReadsAt(levels, 22);
    assert Apply(map[], es) == map[k := x];
  }

  lemma ReadsAt(levels: Levels, p: nat)
    requires p <= 22
    ensures ReadFrom(levels, p) == if p == 22 then map[] else Apply(ReadFrom(levels, p + 1), BucketAt(levels, p).entries)
  {
  }
}
