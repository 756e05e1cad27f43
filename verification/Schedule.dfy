/** When each level of the bucket list spills, and which ledgers its buckets then hold. */
module Schedule {
  import opened Bits

  const NUM_LEVELS: nat := 11
  const LAST_LEVEL: nat := 10
  const TWO_32: nat := 0x1_0000_0000
  const MAX_U32: nat := 0xFFFF_FFFF

  type U32 = n: nat | n < 0x1_0000_0000

  function LevelSize(level: nat): nat
    requires level < NUM_LEVELS
  {
    Pow2(2 * (level + 1))
  }

  function LevelHalf(level: nat): (h: nat)
    requires level < NUM_LEVELS
    ensures h > 0
  {
    assert Pow2(2 * (level + 1)) == 2 * Pow2(2 * level + 1);
    LevelSize(level) / 2
  }

  function Complement(m: U32): U32 { MAX_U32 - m }

  /** `v & ~(m - 1)` on 32-bit words. */
  function Mask(v: U32, m: U32): (r: U32)
    requires m > 0
    ensures r <= v
  {
    And(v, Complement(m - 1))
  }

  lemma LevelFacts(level: nat)
    requires level < NUM_LEVELS
    ensures LevelSize(level) == 2 * LevelHalf(level) < TWO_32
    ensures LevelHalf(level) == Pow2(2 * level + 1)
    ensures level == 0 ==> LevelHalf(level) == 2
    ensures level > 0 ==> LevelHalf(level) == 4 * LevelHalf(level - 1)
  {
    hide Pow2, LevelSize, LevelHalf;
    HalfIs(level);
    if level > 0 {
      HalfIs(level - 1);
      PowStep(2 * level + 1);
      PowStep(2 * level);
    }
    SmallPowers();
    Pow2Monotone(2 * level + 2, 32);
    Pow2Is32();
  }

  lemma HalfIs(level: nat)
    requires level < NUM_LEVELS
    ensures LevelHalf(level) == Pow2(2 * level + 1)
    ensures LevelSize(level) == 2 * LevelHalf(level) == Pow2(2 * level + 2)
  {
    hide Pow2;
    var d := 2 * level + 2;
    PowStep(d);
    assert LevelSize(level) == Pow2(d);
  }

  lemma Pow2Is32()
    ensures Pow2(32) == TWO_32
  {
    hide Pow2;
    SmallPowers();
    PowFour(0);
    PowFour(4);
    PowFour(8);
    PowFour(12);
    PowFour(16);
    PowFour(20);
    PowFour(24);
    PowFour(28);
  }

  lemma MaskPow2(v: U32, e: nat)
    requires e < 32 && Pow2(e) < TWO_32
    ensures Mask(v, Pow2(e)) == Round(v, Pow2(e))
  {
    Pow2Is32();
    AndClearsLow(v, 32, e);
    assert Complement(Pow2(e) - 1) == Pow2(32) - Pow2(e);
  }

  /** Masking rounds down to a multiple of the level's size or half. */
  lemma MaskRounds(v: U32, level: nat)
    requires level < NUM_LEVELS
    ensures LevelSize(level) < TWO_32
    ensures Mask(v, LevelHalf(level)) == Round(v, LevelHalf(level))
    ensures Mask(v, LevelSize(level)) == Round(v, LevelSize(level))
  {
    LevelFacts(level);
    MaskPow2(v, 2 * level + 1);
    MaskPow2(v, 2 * (level + 1));
  }

  predicate LevelShouldSpill(ledger: U32, level: nat)
    requires level < NUM_LEVELS
  {
    LevelFacts(level);
    level != LAST_LEVEL && (ledger == Mask(ledger, LevelHalf(level)) || ledger == Mask(ledger, LevelSize(level)))
  }

  predicate KeepDeadEntries(level: nat) { level < LAST_LEVEL }

  /** Is the merge running on `level` after `ledger` one that leaves out its curr? The next
      change of the level is computed on 32-bit words, so it may wrap round to 0. */
  predicate ShouldMergeWithEmptyCurr(ledger: U32, level: nat)
    requires level < NUM_LEVELS
  {
    level != 0 &&
    (LevelFacts(level - 1);
     var start := Mask(ledger, LevelHalf(level - 1));
     LevelShouldSpill((start + LevelHalf(level - 1)) % TWO_32, level))
  }

  /** All levels but the last spill at the multiples of their half. */
  lemma SpillIff(ledger: U32, level: nat)
    requires level < NUM_LEVELS
    ensures LevelShouldSpill(ledger, level) <==> level < LAST_LEVEL && Multiple(ledger, LevelHalf(level))
  {
    MaskRounds(ledger, level);
    LevelFacts(level);
    Pow2Divides(2 * level + 1, 2 * (level + 1));
    if Multiple(ledger, LevelSize(level)) { MultipleTrans(ledger, LevelSize(level), LevelHalf(level)); }
  }

  /** A level that spills takes every younger level with it. */
  lemma SpillDownward(ledger: U32, level: nat)
    requires 0 < level < NUM_LEVELS && LevelShouldSpill(ledger, level)
    ensures LevelShouldSpill(ledger, level - 1)
  {
    hide LevelHalf, LevelShouldSpill, Round, Pow2;
    SpillIff(ledger, level);
    SpillIff(ledger, level - 1);
    LevelFacts(level);
    RoundNested(ledger, LevelHalf(level - 1));
  }

  /** A change due at 2^32 is computed as one due at 0; both are multiples of every half. */
  lemma WrapKeepsMultiple(next: nat, level: nat)
    requires level < NUM_LEVELS && next <= TWO_32
    ensures Multiple(next % TWO_32, LevelHalf(level)) == Multiple(next, LevelHalf(level))
  {
    if next == TWO_32 {
      Pow2Is32();
      LevelFacts(level);
      Pow2Divides(2 * level + 1, 32);
    }
  }

  lemma NextWithin(ledger: U32, level: nat)
    requires level < NUM_LEVELS
    ensures Round(ledger, LevelHalf(level)) + LevelHalf(level) <= TWO_32
  {
    Pow2Is32();
    LevelFacts(level);
    Pow2Divides(2 * level + 1, 32);
    RoundUpWithin(ledger, LevelHalf(level), TWO_32);
  }

  /** The next change of a level, and whether the level itself spills then. */
  lemma EmptyCurrIff(ledger: U32, level: nat)
    requires 0 < level < NUM_LEVELS
    ensures var h := LevelHalf(level - 1);
      ShouldMergeWithEmptyCurr(ledger, level) <==>
        level < LAST_LEVEL && Multiple(Round(ledger, h) + h, LevelHalf(level))
  {
    hide LevelHalf, Mask, LevelShouldSpill, Round, Multiple, Pow2;
    var next := Round(ledger, LevelHalf(level - 1)) + LevelHalf(level - 1);
    MaskRounds(ledger, level - 1);
    NextWithin(ledger, level - 1);
    WrapKeepsMultiple(next, level);
    SpillIff(next % TWO_32, level);
  }

  /** The merge that is running while the level below does not spill leaves out curr exactly
      when the level itself spills at the moment the merge is due. */
  lemma EmptyCurrWhenDue(ledger: U32, level: nat)
    requires 0 < level < NUM_LEVELS && 0 < ledger && Multiple(ledger, LevelHalf(level - 1))
    ensures ShouldMergeWithEmptyCurr(ledger - 1, level) <==> LevelShouldSpill(ledger, level)
  {
    hide ShouldMergeWithEmptyCurr, LevelShouldSpill, LevelHalf, Round, Pow2;
    SpillIff(ledger, level);
    EmptyCurrIff(ledger - 1, level);
    RoundPrev(ledger, LevelHalf(level - 1));
  }

  lemma EmptyCurrBetween(ledger: U32, level: nat)
    requires 0 < level < NUM_LEVELS && 0 < ledger && !Multiple(ledger, LevelHalf(level - 1))
    ensures ShouldMergeWithEmptyCurr(ledger - 1, level) == ShouldMergeWithEmptyCurr(ledger, level)
  {
    hide ShouldMergeWithEmptyCurr, LevelHalf, Round, Pow2;
    EmptyCurrIff(ledger - 1, level);
    EmptyCurrIff(ledger, level);
    RoundPrev(ledger, LevelHalf(level - 1));
  }

  /** The decision depends only on the ledger at which the running merge was started. */
  lemma EmptyCurrFromStart(ledger: U32, level: nat)
    requires 0 < level < NUM_LEVELS && LevelSize(level - 1) < TWO_32
    ensures var start := Mask(ledger, LevelHalf(level - 1));
      ShouldMergeWithEmptyCurr(start, level) == ShouldMergeWithEmptyCurr(ledger, level)
  {
    hide ShouldMergeWithEmptyCurr, LevelHalf, Round, Pow2, Mask;
    LevelFacts(level - 1);
    var start := Mask(ledger, LevelHalf(level - 1));
    MaskRounds(ledger, level - 1);
    RoundIsMultiple(ledger, LevelHalf(level - 1));
    EmptyCurrIff(ledger, level);
    EmptyCurrIff(start, level);
  }
}
