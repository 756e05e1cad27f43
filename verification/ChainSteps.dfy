/** The steps of the bucket list as one key sees them: 22 slots, newest first, where position
    2i is the curr of level i and position 2i + 1 its snap. */
module ChainSteps {
  import opened Outcomes
  import opened Buckets
  import opened Lifecycle

  const POSITIONS: nat := 22

  /** The merge of the curr of level `i` (or of nothing) with the snap above it. */
  function Merged(c: seq<Slot>, i: nat, emptyCurr: bool): Slot
    requires |c| == POSITIONS && 1 <= i <= 10
  {
    Combine(if emptyCurr then Absent else c[2 * i], c[2 * i - 1])
  }

  /** What the merge pending on level `i` may hold for a key: that merge, or nothing. */
  predicate PendingSlot(c: seq<Slot>, i: nat, emptyCurr: bool, v: Slot)
    requires |c| == POSITIONS && 1 <= i <= 10
  {
    v == Merged(c, i, emptyCurr) || v.Absent?
  }

  /** Nothing was left out, or newer slots are steady, or a tombstone has reached the last level. */
  predicate SteadySlot(c: seq<Slot>, i: nat, emptyCurr: bool, v: Slot)
    requires |c| == POSITIONS && 1 <= i <= 10
  {
    var merged := Merged(c, i, emptyCurr);
    v == merged || (v.Absent? && (Steady(c[..2 * i - 1]) || (i == 10 && merged.Dead?)))
  }

  /** Level i - 1 snaps and level i commits `v`. */
  function Shifted(c: seq<Slot>, i: nat, v: Slot): (r: seq<Slot>)
    requires |c| == POSITIONS && 1 <= i <= 10
    ensures |r| == POSITIONS
  {
    c[2 * i - 2 := Absent][2 * i - 1 := c[2 * i - 2]][2 * i := v]
  }

  /** An empty position between two others changes nothing. */
  lemma Gap(a: seq<Slot>, b: seq<Slot>)
    ensures Newest(a + [Absent] + b) == Newest(a + b)
    ensures Oldest(a + [Absent] + b) == Oldest(a + b)
    ensures Legal(a + [Absent] + b) == Legal(a + b)
  {
    Joined(a + [Absent], b);
    Joined(a, [Absent]);
    Joined(a, b);
  }

  /** The same shift for a chain that is cut off after position 2i or later. */
  function ShiftedPart(c: seq<Slot>, i: nat, v: Slot): seq<Slot>
    requires 1 <= i && 2 * i < |c|
  {
    c[..2 * i - 2] + [Absent] + ([c[2 * i - 2]] + [v] + c[2 * i + 1..])
  }

  lemma ShiftedIsPart(c: seq<Slot>, i: nat, v: Slot, n: nat)
    requires |c| == POSITIONS && 1 <= i <= 10 && 2 * i < n <= POSITIONS
    ensures Shifted(c, i, v)[..n] == ShiftedPart(c[..n], i, v)
  {
  }

  lemma ShiftedCloses(c: seq<Slot>, i: nat, v: Slot)
    requires 1 <= i && 2 * i < |c|
    ensures var p, q := c[..2 * i - 1], c[2 * i + 1..];
      && c == p + [c[2 * i - 1], c[2 * i]] + q
      && Newest(ShiftedPart(c, i, v)) == Newest(p + [v] + q)
      && Oldest(ShiftedPart(c, i, v)) == Oldest(p + [v] + q)
      && Legal(ShiftedPart(c, i, v)) == Legal(p + [v] + q)
  {
    var a, b := c[..2 * i - 2], [c[2 * i - 2]] + [v] + c[2 * i + 1..];
    Gap(a, b);
    assert a + b == c[..2 * i - 1] + [v] + c[2 * i + 1..];
  }

  /** Dropping the merge on level `i` lets no creation follow what is not dead, and uncovers nothing
      that a reader would see. */
  predicate DropKeeps(c: seq<Slot>, i: nat, emptyCurr: bool)
    requires |c| == POSITIONS && 1 <= i <= 10
  {
    var p, q := c[..2 * i - 1], c[2 * i + 1..];
    && !(Oldest(p).Init? && (Newest(q).Init? || Newest(q).Live?))
    && (!Newest(p).Absent? || Overlay(None, Newest(q)) == Overlay(None, Newest([Merged(c, i, emptyCurr)] + q)))
  }

  /** A shift that commits the merge, or drops it, keeps the chain exactly in these cases. */
  lemma ShiftKeepsIff(c: seq<Slot>, i: nat, emptyCurr: bool, v: Slot)
    requires |c| == POSITIONS && 1 <= i <= 10 && Legal(c)
    requires emptyCurr ==> c[2 * i].Absent?
    requires PendingSlot(c, i, emptyCurr, v)
    ensures Legal(Shifted(c, i, v)) && View(Shifted(c, i, v)) == View(c) <==>
      v == Merged(c, i, emptyCurr) || DropKeeps(c, i, emptyCurr)
  {
    hide Legal, Newest, Oldest;
    var p, x, y, q := c[..2 * i - 1], c[2 * i - 1], c[2 * i], c[2 * i + 1..];
    ShiftedIsPart(c, i, v, POSITIONS);
    assert c[..POSITIONS] == c && Shifted(c, i, v)[..POSITIONS] == Shifted(c, i, v);
    ShiftedCloses(c, i, v);
    if v == Merged(c, i, emptyCurr) {
      PairMerged(p, x, y, q, v);
    } else {
      PairDroppedIff(p, x, y, q);
    }
  }

  /** What is left out over steady slots, or as a tombstone at the last level, may be left out. */
  lemma SteadyMayDrop(c: seq<Slot>, i: nat, emptyCurr: bool, v: Slot)
    requires |c| == POSITIONS && 1 <= i <= 10 && c[21].Absent? && SteadySlot(c, i, emptyCurr, v)
    ensures PendingSlot(c, i, emptyCurr, v) && (v == Merged(c, i, emptyCurr) || DropKeeps(c, i, emptyCurr))
  {
    var p, q := c[..2 * i - 1], c[2 * i + 1..];
    Joined(p, []);
    Joined([Merged(c, i, emptyCurr)], q);
    OneSlot(Merged(c, i, emptyCurr));
    if i == 10 {
      assert q == [Absent];
      OneSlot(Absent);
    }
  }

  lemma LegalPrefix(c: seq<Slot>, n: nat)
    requires Legal(c) && n <= |c|
    ensures Legal(c[..n])
  {
    assert c == c[..n] + c[n..];
    Joined(c[..n], c[n..]);
  }

  /** A shift keeps every steady part that reaches past it. */
  lemma ShiftSteady(c: seq<Slot>, i: nat, emptyCurr: bool, v: Slot, n: nat)
    requires |c| == POSITIONS && 1 <= i < 10 && Legal(c) && 2 * i < n <= POSITIONS
    requires emptyCurr ==> c[2 * i].Absent?
    requires SteadySlot(c, i, emptyCurr, v)
    requires Steady(c[..n])
    ensures Steady(Shifted(c, i, v)[..n])
  {
    var part := c[..n];
    ShiftedIsPart(c, i, v, n);
    ShiftedCloses(part, i, v);
    LegalPrefix(c, n);
    assert part[..2 * i - 1] == c[..2 * i - 1];
    PairMergedSteady(part[..2 * i - 1], part[2 * i - 1], part[2 * i], part[2 * i + 1..], v);
  }

  /** A creation only follows a deletion: so if newer slots begin with a creation and the merge on
      level `i` says something, that is a tombstone. */
  lemma CreationFollowsDead(c: seq<Slot>, i: nat, emptyCurr: bool)
    requires |c| == POSITIONS && 1 <= i <= 10 && Legal(c)
    requires Oldest(c[..2 * i - 1]).Init?
    ensures Merged(c, i, emptyCurr).Absent? || Merged(c, i, emptyCurr).Dead?
  {
    var p, q := c[..2 * i - 1], c[2 * i - 1..];
    assert c == p + q && q[1..][0] == c[2 * i];
    Joined(p, q);
  }

  /** Neighbours of a legal chain can be merged. */
  lemma NeighboursMerge(c: seq<Slot>, i: nat, emptyCurr: bool)
    requires |c| == POSITIONS && 1 <= i <= 10 && Legal(c)
    ensures !Clash(if emptyCurr then Absent else c[2 * i], c[2 * i - 1])
  {
    var p, q := c[..2 * i - 1], c[2 * i + 1..];
    assert c == p + [c[2 * i - 1], c[2 * i]] + q;
    PairMerged(p, c[2 * i - 1], c[2 * i], q, Combine(c[2 * i], c[2 * i - 1]));
  }

  /** What is pending on another level stays so, if a younger level that snaps leaves out its curr. */
  lemma ShiftPending(c: seq<Slot>, i: nat, v: Slot, j: nat, e: bool, u: Slot)
    requires |c| == POSITIONS && 1 <= i <= 10 && 1 <= j <= 10 && j != i && (j == i - 1 ==> e)
    requires PendingSlot(c, j, e, u)
    ensures PendingSlot(Shifted(c, i, v), j, e, u)
  {
  }

  /** Steadiness on an older level stays. */
  lemma ShiftSteadyOlder(c: seq<Slot>, i: nat, emptyCurr: bool, v: Slot, j: nat, e: bool, u: Slot)
    requires |c| == POSITIONS && 1 <= i < j <= 10 && Legal(c)
    requires emptyCurr ==> c[2 * i].Absent?
    requires SteadySlot(c, i, emptyCurr, v) && SteadySlot(c, j, e, u)
    ensures SteadySlot(Shifted(c, i, v), j, e, u)
  {
    if Steady(c[..2 * j - 1]) { ShiftSteady(c, i, emptyCurr, v, 2 * j - 1); }
  }

  /** And on a younger one, if the level that snaps leaves out its curr. */
  lemma ShiftSteadyYounger(c: seq<Slot>, i: nat, v: Slot, j: nat, e: bool, u: Slot)
    requires |c| == POSITIONS && 1 <= j < i <= 10 && (j == i - 1 ==> e)
    requires SteadySlot(c, j, e, u)
    ensures SteadySlot(Shifted(c, i, v), j, e, u)
  {
    assert Shifted(c, i, v)[..2 * j - 1] == c[..2 * j - 1];
  }

  /** The newest position takes in the slot `f` of a closed ledger. */
  lemma FrontKeeps(c: seq<Slot>, f: Slot)
    requires c != [] && Legal(c)
    requires f.Init? ==> View(c).None?
    ensures !Clash(c[0], f)
    ensures Legal(c[0 := Combine(c[0], f)])
    ensures View(c[0 := Combine(c[0], f)]) == Overlay(View(c), f)
    ensures forall n :: 0 < n <= |c| && Steady(c[..n]) ==> Steady(c[0 := Combine(c[0], f)][..n])
  {
    var v := Combine(c[0], f);
    var c' := c[0 := v];
    assert c'[1..] == c[1..];
    forall n | 0 < n <= |c| && Steady(c[..n]) ensures Steady(c'[..n]) {
      assert c[..n][1..] == c'[..n][1..];
    }
  }

  /** Taking in the slot of a closed ledger leaves alone what is pending on the older levels. */
  lemma FrontPending(c: seq<Slot>, f: Slot, j: nat, e: bool, u: Slot)
    requires |c| == POSITIONS && Legal(c) && 1 <= j <= 10
    requires f.Init? ==> View(c).None?
    ensures PendingSlot(c, j, e, u) ==> PendingSlot(c[0 := Combine(c[0], f)], j, e, u)
    ensures SteadySlot(c, j, e, u) ==> SteadySlot(c[0 := Combine(c[0], f)], j, e, u)
  {
    FrontKeeps(c, f);
  }
}
