/** Merging as an operation on whole buckets: when groupings succeed and agree, and what goes
    wrong when old merges meet new shadows. */
module BucketAlgebra {
  import opened Outcomes
  import opened LedgerKeys
  import opened Buckets
  import opened Lifecycle
  import opened BucketMerge
  import opened BucketInvariant
  import opened BucketClosing

  /** A merge without shadows that keeps tombstones. */
  function Join(v: nat, older: Bucket, newer: Bucket): Outcome<Bucket> {
    MergeBuckets(v, older, newer, [], true)
  }

  /** Oldest first. */
  function JoinLeft(v: nat, a: Bucket, b: Bucket, c: Bucket): Outcome<Bucket> {
    var ab :- Join(v, a, b);
    Join(v, ab, c)
  }

  function JoinRight(v: nat, a: Bucket, b: Bucket, c: Bucket): Outcome<Bucket> {
    var bc :- Join(v, b, c);
    Join(v, a, bc)
  }

  /** The three buckets' slots for a key form a legal chain. */
  predicate LegalAt(a: Bucket, b: Bucket, c: Bucket, k: LedgerKey) {
    Legal([At(c, k), At(b, k), At(a, k)])
  }

  /** The key was created, deleted, and then touched again as if it existed. */
  predicate TouchedWhileGone(a: Bucket, b: Bucket, c: Bucket, k: LedgerKey) {
    At(a, k).Init? && At(b, k).Dead? && (At(c, k).Live? || At(c, k).Dead?)
  }

  /** A merge within the version bound fails exactly where two slots clash, and has the slots
      the table gives. */
  lemma JoinIs(v: nat, older: Bucket, newer: Bucket)
    requires WellFormed(older) && WellFormed(newer) && Version(older) <= v && Version(newer) <= v
    ensures Join(v, older, newer).Ok? <==> forall k :: !Clash(At(older, k), At(newer, k))
    ensures Join(v, older, newer).Ok? ==>
      var r := Join(v, older, newer).value;
      && WellFormed(r) && Version(r) == Max(Version(older), Version(newer)) && r.meta == MetaFor(Version(r))
      && forall k :: At(r, k) == Combine(At(older, k), At(newer, k))
  {
    hide MergeEntries, Emit, Combine, Clash;
    var version := MergeVersion(older, newer, []);
    var mode := ModeFor(version, [], true);
    MergeOkIff(older.entries, newer.entries, mode);
    if forall k :: !Clash(At(older, k), At(newer, k)) {
      forall k ensures
        && (Find(older.entries, k).Init? || Find(newer.entries, k).Init? ==> version >= FIRST_PROTOCOL_SUPPORTING_INITENTRY)
        && !Clash(Find(older.entries, k), Find(newer.entries, k))
      {
        InitNeedsVersion(older, k);
        InitNeedsVersion(newer, k);
        assert !Clash(At(older, k), At(newer, k));
      }
      assert Mergeable(older.entries, newer.entries, version);
    }
    if Join(v, older, newer).Ok? {
      forall k ensures !Clash(At(older, k), At(newer, k)) {
        assert !Clash(Find(older.entries, k), Find(newer.entries, k));
      }
      var r := Join(v, older, newer).value;
      MergeWellFormed(v, older, newer, [], true);
      forall k ensures At(r, k) == Combine(At(older, k), At(newer, k)) {
        MergeSlots(older.entries, newer.entries, mode, k);
        NoShadows(mode, k, Combine(At(older, k), At(newer, k)));
      }
    }
  }

  /** Merging oldest first succeeds if and only if every key's chain is legal. */
  lemma LeftJoinIff(v: nat, a: Bucket, b: Bucket, c: Bucket)
    requires WellFormed(a) && WellFormed(b) && WellFormed(c)
    requires Version(a) <= v && Version(b) <= v && Version(c) <= v
    ensures JoinLeft(v, a, b, c).Ok? <==> forall k :: LegalAt(a, b, c, k)
  {
    hide Join, Legal, Combine, WellFormed, Version;
    JoinIs(v, a, b);
    forall k ensures LegalAt(a, b, c, k) <==> !Clash(At(a, k), At(b, k)) && !Clash(Combine(At(a, k), At(b, k)), At(c, k)) {
      LeftGroupingIff(At(a, k), At(b, k), At(c, k));
    }
    if Join(v, a, b).Ok? {
      JoinIs(v, Join(v, a, b).value, c);
    }
  }

  /** Then merging in the other grouping succeeds too, and the two agree if and only if no key
      was touched while it did not exist. */
  lemma MergeAssociativeIff(v: nat, a: Bucket, b: Bucket, c: Bucket)
    requires WellFormed(a) && WellFormed(b) && WellFormed(c)
    requires Version(a) <= v && Version(b) <= v && Version(c) <= v
    requires forall k :: LegalAt(a, b, c, k)
    ensures JoinLeft(v, a, b, c).Ok? && JoinRight(v, a, b, c).Ok?
    ensures JoinLeft(v, a, b, c) == JoinRight(v, a, b, c) <==> forall k :: !TouchedWhileGone(a, b, c, k)
  {
    hide Join, Legal, Combine, WellFormed, Version;
    LeftJoinIff(v, a, b, c);
    JoinIs(v, a, b);
    JoinIs(v, b, c);
    forall k ensures !Clash(At(b, k), At(c, k)) && !Clash(At(a, k), Combine(At(b, k), At(c, k))) {
      assert LegalAt(a, b, c, k);
      CombineAssociativeIff(At(a, k), At(b, k), At(c, k));
    }
    var ab, bc := Join(v, a, b).value, Join(v, b, c).value;
    JoinIs(v, ab, c);
    JoinIs(v, a, bc);
    var x, y := JoinLeft(v, a, b, c).value, JoinRight(v, a, b, c).value;
    forall k ensures At(x, k) == At(y, k) <==> !TouchedWhileGone(a, b, c, k) {
      assert LegalAt(a, b, c, k);
      CombineAssociativeIff(At(a, k), At(b, k), At(c, k));
    }
    if forall k :: !TouchedWhileGone(a, b, c, k) {
      forall k ensures Find(x.entries, k) == Find(y.entries, k) {
        assert At(x, k) == At(y, k);
      }
      SortedEntries(x);
      SortedEntries(y);
      SameSlotsSameEntries(x.entries, y.entries);
    }
  }

  /** The grouping shows when an entry is created, deleted and then updated: merged oldest first
      the update stays an update, merged newest first it becomes the creation. */
  lemma GroupingShows(k: LedgerKey, x: Body, y: Body)
    ensures var a, b := Bucket(Some(12), [InitEntry(k, x)]), Bucket(Some(12), [DeadEntry(k)]);
      var c := Bucket(Some(12), [LiveEntry(k, y)]);
      && JoinLeft(12, a, b, c).Ok? && JoinRight(12, a, b, c).Ok?
      && JoinLeft(12, a, b, c) != JoinRight(12, a, b, c)
  {
    hide JoinLeft, JoinRight;
    var a, b := Bucket(Some(12), [InitEntry(k, x)]), Bucket(Some(12), [DeadEntry(k)]);
    var c := Bucket(Some(12), [LiveEntry(k, y)]);
    forall j ensures LegalAt(a, b, c, j) {
      FindSingle(a.entries[0], j);
      FindSingle(b.entries[0], j);
      FindSingle(c.entries[0], j);
      LeftGroupingIff(At(a, j), At(b, j), At(c, j));
    }
    LeftJoinIff(12, a, b, c);
    MergeAssociativeIff(12, a, b, c);
    assert TouchedWhileGone(a, b, c, k);
  }

  lemma FindSingle(e: BucketEntry, k: LedgerKey)
    ensures Find([e], k) == if k == e.key then SlotOf(e) else Absent
  {
    var es := [e];
    assert es[1..] == [];
  }

  /** Merging first and applying both parts in turn differ on a base that already holds a key the
      older part creates and the newer one deletes: the merge says nothing, so the key stays. */
  lemma MergeForgetsDeletion(k: LedgerKey, x: Body, y: Body)
    ensures var m, older, newer := map[k := x], Bucket(Some(12), [InitEntry(k, y)]), Bucket(Some(12), [DeadEntry(k)]);
      && MergeBuckets(12, older, newer, [], true) == Ok(Bucket(Some(12), []))
      && Apply(m, []) == m && Apply(Apply(m, older.entries), newer.entries) == map[]
  {
    var m, older, newer := map[k := x], Bucket(Some(12), [InitEntry(k, y)]), Bucket(Some(12), [DeadEntry(k)]);
    LessTotal(k, k);
    assert older.entries[1..] == [] && newer.entries[1..] == [];
    var mode := ModeFor(12, [], true);
    assert StepPuts(older.entries, newer.entries, mode) == Ok([]);
    assert MergeEntries([], [], mode) == Ok([]);
    var none: seq<BucketEntry> := [];
    assert none + none == none;
    assert Apply(m, older.entries) == Apply(m[k := y], []) == map[k := y];
    assert Apply(map[k := y], newer.entries) == Apply(map[k := y] - {k}, []) == map[];
  }

  /** Why a merge of the old kind must not meet new shadows: with the key live at the bottom,
      deleted above that at an old protocol, and created again at protocol 12, the old merge drops
      the deletion; once the creation is deleted again, the two vanish and the key comes back. */
  lemma OldMergeUnderNewShadowsRevives(k: LedgerKey, x: Body, y: Body)
    ensures var bottom, deleted := Bucket(None, [LiveEntry(k, x)]), Bucket(None, [DeadEntry(k)]);
      var created, deletedAgain := Bucket(Some(12), [InitEntry(k, y)]), Bucket(Some(12), [DeadEntry(k)]);
      && Apply(Apply(Apply(Apply(map[], bottom.entries), deleted.entries), created.entries), deletedAgain.entries) == map[]
      && MergeBuckets(12, EmptyBucket, deleted, [created], true) == Ok(EmptyBucket)
      && MergeBuckets(12, created, deletedAgain, [], true) == Ok(Bucket(Some(12), []))
      && Apply(Apply(Apply(map[], bottom.entries), EmptyBucket.entries), Bucket(Some(12), []).entries) == map[k := x]
  {
    var deleted := Bucket(None, [DeadEntry(k)]);
    var created, deletedAgain := Bucket(Some(12), [InitEntry(k, y)]), Bucket(Some(12), [DeadEntry(k)]);
    LessTotal(k, k);
    assert deleted.entries[1..] == [] && created.entries[1..] == [] && deletedAgain.entries[1..] == [];
    assert MergeVersion(EmptyBucket, deleted, [created][..0]) == 0;
    assert MergeVersion(EmptyBucket, deleted, [created]) == 0;
    assert Shadowed([created], k);
    var mode := ModeFor(0, [created], true);
    assert StepPuts([], deleted.entries, mode) == Ok([]);
    assert MergeEntries([], [], mode) == Ok([]);
    assert OldRest([], deleted.entries) == [] && NewRest([], deleted.entries) == [];
    var none: seq<BucketEntry> := [];
    assert none + none == none;
    assert MergeEntries([], deleted.entries, mode) == Ok([]);
    MergeForgetsDeletion(k, x, y);
    var m := map[k := x];
    assert Apply(map[], [LiveEntry(k, x)]) == Apply(m, []) == m;
    assert Apply(m, [DeadEntry(k)]) == Apply(m - {k}, []) == map[];
    assert Apply(map[], [InitEntry(k, y)]) == Apply(map[k := y], []) == map[k := y];
    assert Apply(map[k := y], [DeadEntry(k)]) == Apply(map[k := y] - {k}, []) == map[];
  }
}
