/** How many ledgers each bucket holds: closed forms, their growth from one ledger to the
    next, and the size computations that must agree with them. */
module LedgerSpans {
  import opened Bits
  import opened Schedule

  /** How far the newest ledger in a snap lags behind the spill that made it. */
  function Skew(level: nat): nat
    requires level < NUM_LEVELS
  {
    if level == 0 then 1 else Skew(level - 1) + 2 * LevelHalf(level - 1)
  }

  lemma {:induction false} SkewBound(level: nat)
    requires level < NUM_LEVELS
    ensures 3 * Skew(level) + 1 == 2 * LevelHalf(level)
    ensures level > 0 ==> LevelHalf(level) == 4 * LevelHalf(level - 1)
  {
    LevelFacts(level);
    if level > 0 { SkewBound(level - 1); }
  }

  /** The newest ledger in the level's curr after closing `ledger`, or 0 if it holds none. */
  function CurrTop(ledger: nat, level: nat): (top: nat)
    requires level < NUM_LEVELS
    ensures top <= ledger
  {
    if level == 0 then ledger
    else
      var h := LevelHalf(level - 1);
      SkewBound(level - 1);
      var start := Round(ledger, h);
      if start >= 2 * h then start - h - Skew(level - 1) else 0
  }

  /** The newest ledger in the level's snap after closing `ledger`, or 0 if it holds none. */
  function SnapTop(ledger: nat, level: nat): (top: nat)
    requires level < NUM_LEVELS
    ensures top <= ledger
  {
    if level == LAST_LEVEL then 0
    else
      SkewBound(level);
      RoundUnit(ledger, LevelHalf(level));
      var start := Round(ledger, LevelHalf(level));
      if start > 0 then start - Skew(level) else 0
  }

  lemma RoundUnit(v: nat, h: nat)
    requires h > 0
    ensures Round(v, h) > 0 ==> Round(v, h) >= h
    ensures Round(v, h) > h ==> Round(v, h) >= 2 * h
  {
    if v >= h && v - h >= h { assert Round(v - h, h) == h + Round(v - h - h, h); }
  }

  lemma TopZero(ledger: nat)
    ensures CurrTop(ledger, 0) == ledger && SnapTop(ledger, LAST_LEVEL) == 0
  {
  }

  /** Each curr is newer than its snap, and each snap newer than the next level's curr. */
  lemma TopsDescend(ledger: nat, level: nat)
    requires level < NUM_LEVELS
    ensures CurrTop(ledger, level) >= SnapTop(ledger, level)
    ensures level < LAST_LEVEL ==> SnapTop(ledger, level) >= CurrTop(ledger, level + 1)
  {
    SkewBound(level);
    RoundUnit(ledger, LevelHalf(level));
    if level > 0 {
      SkewBound(level - 1);
      RoundNested(ledger, LevelHalf(level - 1));
    }
  }

  /** How the tops move when a ledger is closed: a spill hands a level's curr to its snap,
      and the snap before it to the next level's curr. */
  lemma TopsStep(ledger: nat, level: nat)
    requires 0 < ledger && level < LAST_LEVEL
    ensures Multiple(ledger, LevelHalf(level)) ==>
      SnapTop(ledger, level) == CurrTop(ledger - 1, level) && CurrTop(ledger, level + 1) == SnapTop(ledger - 1, level)
    ensures !Multiple(ledger, LevelHalf(level)) ==>
      SnapTop(ledger, level) == SnapTop(ledger - 1, level) && CurrTop(ledger, level + 1) == CurrTop(ledger - 1, level + 1)
  {
    var h := LevelHalf(level);
    SkewBound(level);
    RoundPrev(ledger, h);
    if Multiple(ledger, h) {
      RoundUnit(ledger, h);
      if level > 0 {
        var g := LevelHalf(level - 1);
        SkewBound(level - 1);
        RoundNested(ledger, g);
        RoundPrev(ledger, g);
      }
    }
  }

  function CurrSize(ledger: nat, level: nat): (n: nat)
    requires level < NUM_LEVELS
    ensures n <= CurrTop(ledger, level)
  {
    TopsDescend(ledger, level);
    CurrTop(ledger, level) - SnapTop(ledger, level)
  }

  function SnapSize(ledger: nat, level: nat): (n: nat)
    requires level < NUM_LEVELS
    ensures n <= SnapTop(ledger, level)
  {
    TopsDescend(ledger, level);
    if level == LAST_LEVEL then 0 else SnapTop(ledger, level) - CurrTop(ledger, level + 1)
  }

  /** No bucket spans more than half the size of its level. */
  lemma SizesWithin(ledger: nat, level: nat)
    requires level < LAST_LEVEL
    ensures CurrSize(ledger, level) <= LevelHalf(level) && SnapSize(ledger, level) <= LevelHalf(level)
  {
    CurrWithin(ledger, level);
    SnapWithin(ledger, level);
  }

  lemma CurrWithin(ledger: nat, level: nat)
    requires level < LAST_LEVEL
    ensures CurrTop(ledger, level) - SnapTop(ledger, level) <= LevelHalf(level)
  {
    hide LevelHalf, Round;
    SkewBound(level);
    LevelFacts(0);
    RoundUnit(ledger, LevelHalf(level));
    if level > 0 {
      var g := LevelHalf(level - 1);
      SkewBound(level - 1);
      assert LevelHalf(level) == 4 * g && Skew(level) == Skew(level - 1) + 2 * g;
      RoundNested(ledger, g);
    }
  }

  lemma SnapWithin(ledger: nat, level: nat)
    requires level < LAST_LEVEL
    ensures SnapTop(ledger, level) - CurrTop(ledger, level + 1) <= LevelHalf(level)
  {
    hide LevelHalf, Round, Skew;
    SkewBound(level);
    RoundUnit(ledger, LevelHalf(level));
  }

  /** The newest ledger held at position `p` or older, newest positions first. */
  function PositionTop(ledger: nat, p: nat): (top: nat)
    requires p <= 2 * NUM_LEVELS
    ensures top <= ledger
  {
    if p == 2 * NUM_LEVELS then 0
    else if p % 2 == 0 then CurrTop(ledger, p / 2)
    else SnapTop(ledger, p / 2)
  }

  lemma {:induction false} PositionsDescend(ledger: nat, p: nat, q: nat)
    requires p <= q <= 2 * NUM_LEVELS
    ensures PositionTop(ledger, p) >= PositionTop(ledger, q)
    decreases q - p
  {
    hide CurrTop, SnapTop;
    if p < q {
      TopsDescend(ledger, p / 2);
      TopZero(ledger);
      PositionsDescend(ledger, p + 1, q);
    }
  }

  /** Every closed ledger is held at exactly one position: `p` holds those above the top of the
      next position, up to its own. */
  lemma SpansPartition(ledger: nat, l: nat) returns (p: nat)
    requires 1 <= l <= ledger
    ensures p < 2 * NUM_LEVELS && PositionTop(ledger, p + 1) < l <= PositionTop(ledger, p)
    ensures forall q :: 0 <= q < 2 * NUM_LEVELS && PositionTop(ledger, q + 1) < l <= PositionTop(ledger, q) ==> q == p
  {
    hide CurrTop, SnapTop;
    TopZero(ledger);
    p := 0;
    while l <= PositionTop(ledger, p + 1)
      invariant p < 2 * NUM_LEVELS && l <= PositionTop(ledger, p)
      decreases 2 * NUM_LEVELS - p
    {
      p := p + 1;
    }
    forall q | 0 <= q < 2 * NUM_LEVELS && PositionTop(ledger, q + 1) < l <= PositionTop(ledger, q) ensures q == p {
      if q < p { PositionsDescend(ledger, q + 1, p); }
      if p < q { PositionsDescend(ledger, p + 1, q); }
    }
  }

  /** Once a level has spilled, its curr holds one spill from above more than have arrived
      since its own last spill. */
  lemma CurrSizeFull(ledger: nat, level: nat)
    requires 0 < level < LAST_LEVEL && Round(ledger, LevelHalf(level)) > 0
    ensures var h, g := LevelHalf(level), LevelHalf(level - 1);
      Round(ledger, g) >= Round(ledger, h) && CurrSize(ledger, level) == Round(ledger, g) - Round(ledger, h) + g
  {
    var h, g := LevelHalf(level), LevelHalf(level - 1);
    SkewBound(level);
    SkewBound(level - 1);
    RoundNested(ledger, g);
    RoundUnit(ledger, h);
  }

  /** So the size at one spill from above follows from the size at the spill before. */
  lemma CurrSizeRecurs(ledger: nat, level: nat)
    requires 0 < level < LAST_LEVEL && 0 < ledger
    requires Round(ledger, LevelHalf(level)) > 0 && !Multiple(ledger, LevelHalf(level))
    ensures var g := LevelHalf(level - 1);
      var prev := Round(ledger - 1, g);
      && 0 < prev < ledger && Round(prev, LevelHalf(level)) > 0
      && CurrSize(ledger, level) == CurrSize(prev, level) + (if Multiple(ledger, g) then g else 0)
  {
    hide CurrSize, LevelHalf, Round, Pow2;
    var h, g := LevelHalf(level), LevelHalf(level - 1);
    LevelFacts(level);
    var prev := Round(ledger - 1, g);
    RoundPrev(ledger, h);
    RoundPrev(ledger, g);
    RoundNested(ledger - 1, g);
    RoundIsMultiple(ledger - 1, g);
    assert Round(prev, h) == Round(ledger, h);
    CurrSizeFull(ledger, level);
    CurrSizeFull(prev, level);
  }

  lemma CurrSizeZero(ledger: nat)
    requires 0 < ledger
    ensures CurrSize(ledger, 0) == if ledger == 1 then 1 else 1 + ledger % 2
  {
    RoundTwo(ledger);
    LevelFacts(0);
  }

  // ----- the computations -----

  function Sub32(a: U32, b: U32): U32 { (a - b + TWO_32) % TWO_32 }

  function Add32(a: U32, b: U32): U32 { (a + b) % TWO_32 }

  function Max(a: U32, b: U32): U32 { if a < b then b else a }

  /** The latest ledger before `ledger` at which anything changed on the level is the latest
      spill from above. */
  lemma PreviousRelevant(ledger: U32, level: nat)
    requires 0 < level < LAST_LEVEL && 0 < ledger
    requires LevelSize(level) < TWO_32 && LevelSize(level - 1) < TWO_32
    ensures var p := ledger - 1;
      Max(Max(Mask(p, LevelHalf(level - 1)), Mask(p, LevelSize(level - 1))), Max(Mask(p, LevelHalf(level)), Mask(p, LevelSize(level))))
      == Round(p, LevelHalf(level - 1))
  {
    hide Mask, LevelHalf, LevelSize, Round, Pow2;
    var p := ledger - 1;
    MaskRounds(p, level);
    MaskRounds(p, level - 1);
    LevelFacts(level);
    LevelFacts(level - 1);
    RoundCoarser(p, LevelHalf(level - 1), LevelSize(level - 1));
    RoundCoarser(p, LevelHalf(level - 1), LevelHalf(level));
    RoundCoarser(p, LevelHalf(level), LevelSize(level));
  }

  lemma RoundCoarser(v: nat, h: nat, g: nat)
    requires 0 < h && (g == 2 * h || g == 4 * h)
    ensures Round(v, g) <= Round(v, h)
  {
    RoundIsMultiple(v, g);
    assert Multiple(g, h) by {
      assert Round(2 * h, h) == h + Round(h, h) && Round(h, h) == h + Round(0, h);
      if g == 4 * h { assert Round(4 * h, h) == h + Round(3 * h, h) && Round(3 * h, h) == h + Round(2 * h, h); }
    }
    MultipleTrans(Round(v, g), g, h);
    RoundMonotone(Round(v, g), v, h);
  }

  method SizeOfCurr(ledger: U32, level: nat) returns (size: U32)
    requires ledger != 0 && level < NUM_LEVELS
    ensures size == CurrSize(ledger, level)
    decreases level, ledger, 1
  {
    hide CurrTop, CurrSize, Mask, LevelHalf, LevelSize, Round, Pow2;
    if level == 0 {
      CurrSizeZero(ledger);
      return if ledger == 1 then 1 else 1 + ledger % 2;
    }
    LevelFacts(level);
    LevelFacts(level - 1);
    MaskRounds(ledger, level);
    MaskRounds(ledger, level - 1);
    var full, half := LevelSize(level), LevelHalf(level);
    if level != LAST_LEVEL && Mask(ledger, half) != 0 {
      var sizeDelta := Pow2(2 * level - 1);
      SpillEither(ledger, level);
      if Mask(ledger, half) == ledger || Mask(ledger, full) == ledger {
        CurrSizeFull(ledger, level);
        RoundNested(ledger, LevelHalf(level - 1));
        return sizeDelta;
      }
      var prevFull, prevHalf := LevelSize(level - 1), LevelHalf(level - 1);
      var previous := Max(Max(Mask(ledger - 1, prevHalf), Mask(ledger - 1, prevFull)),
                          Max(Mask(ledger - 1, half), Mask(ledger - 1, full)));
      PreviousRelevant(ledger, level);
      CurrSizeRecurs(ledger, level);
      SpillEither(ledger, level - 1);
      size := SizeOfCurr(previous, level);
      if Mask(ledger, prevHalf) == ledger || Mask(ledger, prevFull) == ledger {
        size := Add32(size, sizeDelta);
      }
    } else {
      var below := SizeBelow(ledger, level);
      size := Sub32(ledger, below);
      NothingBeneath(ledger, level);
    }
  }

  method SizeOfSnap(ledger: U32, level: nat) returns (size: U32)
    requires ledger != 0 && level < NUM_LEVELS
    ensures size == SnapSize(ledger, level)
    decreases level, ledger, 2
  {
    hide CurrTop, SnapTop, Mask, LevelHalf, LevelSize, Round, Pow2;
    if level == LAST_LEVEL { return 0; }
    MaskRounds(ledger, level);
    LevelFacts(level);
    FullSnap(ledger, level);
    if Mask(ledger, LevelSize(level)) != 0 { return LevelHalf(level); }
    var held := SizeBelow(ledger, level);
    var c := SizeOfCurr(ledger, level);
    held := Add32(held, c);
    TopsDescend(ledger, level);
    size := Sub32(ledger, held);
  }

  /** The loop both computations sum the younger levels with. */
  method SizeBelow(ledger: U32, level: nat) returns (held: U32)
    requires ledger != 0 && level < NUM_LEVELS
    ensures held == ledger - CurrTop(ledger, level)
    decreases level, ledger, 0
  {
    hide CurrTop, SnapTop;
    TopZero(ledger);
    held := 0;
    for l := 0 to level
      invariant held == ledger - CurrTop(ledger, l)
    {
      TopsDescend(ledger, l);
      var c := SizeOfCurr(ledger, l);
      held := Add32(held, c);
      var s := SizeOfSnap(ledger, l);
      held := Add32(held, s);
    }
  }

  /** A multiple of the size is one of the half. */
  lemma SpillEither(ledger: U32, level: nat)
    requires level < NUM_LEVELS
    ensures Multiple(ledger, LevelSize(level)) ==> Multiple(ledger, LevelHalf(level))
  {
    LevelFacts(level);
    Pow2Divides(2 * level + 1, 2 * (level + 1));
    if Multiple(ledger, LevelSize(level)) { MultipleTrans(ledger, LevelSize(level), LevelHalf(level)); }
  }

  /** Before a level's first spill, and always at the last level, nothing is older than curr. */
  lemma NothingBeneath(ledger: nat, level: nat)
    requires level < NUM_LEVELS
    ensures level == LAST_LEVEL || Round(ledger, LevelHalf(level)) == 0 ==> CurrSize(ledger, level) == CurrTop(ledger, level)
  {
  }

  /** A snap is full exactly from the level's size on; before that nothing lies beneath it. */
  lemma FullSnap(ledger: nat, level: nat)
    requires level < LAST_LEVEL
    ensures Round(ledger, LevelSize(level)) != 0 ==> SnapSize(ledger, level) == LevelHalf(level)
    ensures Round(ledger, LevelSize(level)) == 0 ==> CurrTop(ledger, level + 1) == 0
  {
    var h := LevelHalf(level);
    LevelFacts(level);
    SkewBound(level);
    RoundUnit(ledger, h);
    if ledger >= 2 * h { assert Round(ledger, h) == h + (h + Round(ledger - 2 * h, h)); }
  }

  /** The oldest ledger in the level's curr, or the largest word if it holds none. */
  method OldestLedgerInCurr(ledger: U32, level: nat) returns (oldest: U32)
    requires ledger != 0 && level < NUM_LEVELS
    ensures oldest == if CurrSize(ledger, level) == 0 then MAX_U32 else SnapTop(ledger, level) + 1
  {
    hide CurrTop, SnapTop;
    TopZero(ledger);
    var held := SizeOfCurr(ledger, level);
    if held == 0 { return MAX_U32; }
    var count := ledger;
    for l := 0 to level
      invariant count == CurrTop(ledger, l)
    {
      TopsDescend(ledger, l);
      var c := SizeOfCurr(ledger, l);
      count := Sub32(count, c);
      var s := SizeOfSnap(ledger, l);
      count := Sub32(count, s);
    }
    TopsDescend(ledger, level);
    count := Sub32(count, held);
    oldest := Add32(count, 1);
  }

  /** The oldest ledger in the level's snap, or the largest word if it holds none. */
  method OldestLedgerInSnap(ledger: U32, level: nat) returns (oldest: U32)
    requires ledger != 0 && level < NUM_LEVELS
    ensures oldest == if SnapSize(ledger, level) == 0 then MAX_U32
                      else (if level == LAST_LEVEL then 0 else CurrTop(ledger, level + 1)) + 1
  {
    hide CurrTop, SnapTop;
    TopZero(ledger);
    var held := SizeOfSnap(ledger, level);
    if held == 0 { return MAX_U32; }
    var count := ledger;
    for l := 0 to level + 1
      invariant l < NUM_LEVELS && count == CurrTop(ledger, l)
    {
      TopsDescend(ledger, l);
      var c := SizeOfCurr(ledger, l);
      count := Sub32(count, c);
      var s := SizeOfSnap(ledger, l);
      count := Sub32(count, s);
    }
    oldest := Add32(count, 1);
  }
}
