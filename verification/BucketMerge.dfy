/** Merging two buckets: the merge function, the loop that computes it, and its laws. */
module BucketMerge {
  import opened Outcomes
  import opened LedgerKeys
  import opened Buckets
  import opened Lifecycle

  /** How one merge treats its entries, fixed before the first entry is read. */
  datatype MergeMode = MergeMode(
    version: nat,            // protocol of the merge
    keepLifecycle: bool,     // shadows do not drop INIT and DEAD entries
    keepDead: bool,          // false only at the last level
    shadows: seq<Bucket>)

  predicate Shadowed(shadows: seq<Bucket>, k: LedgerKey) {
    shadows != [] && (At(shadows[0], k) != Absent || Shadowed(shadows[1..], k))
  }

  /** Is an entry for `k` in state `s` left out of the output? */
  predicate Elided(mode: MergeMode, k: LedgerKey, s: Slot) {
    && !(mode.keepLifecycle && (s.Init? || s.Dead?))
    && Shadowed(mode.shadows, k)
  }

  predicate Dropped(mode: MergeMode, k: LedgerKey, s: Slot) {
    Elided(mode, k, s) || (s.Dead? && !mode.keepDead)
  }

  function Kept(mode: MergeMode, e: BucketEntry): seq<BucketEntry> {
    if Dropped(mode, e.key, SlotOf(e)) then [] else [e]
  }

  predicate LegalEntry(mode: MergeMode, e: BucketEntry) {
    e.InitEntry? ==> mode.version >= FIRST_PROTOCOL_SUPPORTING_INITENTRY
  }

  /** The entry that replaces an old and a new entry of the same key, if any. */
  function EqualKeys(o: BucketEntry, n: BucketEntry): Outcome<Option<BucketEntry>> {
    if n.InitEntry? then
      if o.DeadEntry? then Ok(Some(LiveEntry(n.key, n.body))) else Error(MalformedBucket)
    else if o.InitEntry? then
      if n.LiveEntry? then Ok(Some(InitEntry(n.key, n.body))) else Ok(None)
    else
      Ok(Some(n))
  }

  /** Does the next step take the old entry; does it take the new one? */
  predicate TakesOld(o: seq<BucketEntry>, n: seq<BucketEntry>) {
    o != [] && (n == [] || Less(o[0].key, n[0].key) || !Less(n[0].key, o[0].key))
  }

  predicate TakesNew(o: seq<BucketEntry>, n: seq<BucketEntry>) {
    n != [] && (o == [] || !Less(o[0].key, n[0].key))
  }

  function OldRest(o: seq<BucketEntry>, n: seq<BucketEntry>): seq<BucketEntry> {
    if TakesOld(o, n) then o[1..] else o
  }

  function NewRest(o: seq<BucketEntry>, n: seq<BucketEntry>): seq<BucketEntry> {
    if TakesNew(o, n) then n[1..] else n
  }

  /** What the next step of the merge puts in the output: an entry that stands alone as it
      is, and what the table says of two entries with one key. */
  function StepPuts(o: seq<BucketEntry>, n: seq<BucketEntry>, mode: MergeMode): Outcome<seq<BucketEntry>>
    requires o != [] || n != []
  {
    if !TakesNew(o, n) then
      if LegalEntry(mode, o[0]) then Ok(Kept(mode, o[0])) else Error(IllegalEntry)
    else if !TakesOld(o, n) then
      if LegalEntry(mode, n[0]) then Ok(Kept(mode, n[0])) else Error(IllegalEntry)
    else if !LegalEntry(mode, o[0]) || !LegalEntry(mode, n[0]) then
      Error(IllegalEntry)
    else
      var put :- EqualKeys(o[0], n[0]);
      Ok(if put.Some? then Kept(mode, put.value) else [])
  }

  function MergeEntries(o: seq<BucketEntry>, n: seq<BucketEntry>, mode: MergeMode): Outcome<seq<BucketEntry>>
    decreases |o| + |n|
  {
    if o == [] && n == [] then Ok([])
    else
      var put :- StepPuts(o, n, mode);
      var rest :- MergeEntries(OldRest(o, n), NewRest(o, n), mode);
      Ok(put + rest)
  }

  /** The largest version among the inputs and the shadows older than protocol 12. */
  function MergeVersion(older: Bucket, newer: Bucket, shadows: seq<Bucket>): nat {
    if shadows == [] then Max(Version(older), Version(newer))
    else
      var v := Version(shadows[|shadows| - 1]);
      var before := MergeVersion(older, newer, shadows[..|shadows| - 1]);
      if v < FIRST_PROTOCOL_SHADOWS_REMOVED then Max(v, before) else before
  }

  function Max(a: nat, b: nat): nat { if a < b then b else a }

  function ModeFor(version: nat, shadows: seq<Bucket>, keepDead: bool): MergeMode {
    MergeMode(version, version >= FIRST_PROTOCOL_SUPPORTING_INITENTRY, keepDead, shadows)
  }

  function MetaFor(version: nat): Option<nat> {
    if version >= FIRST_PROTOCOL_SUPPORTING_INITENTRY then Some(version) else None
  }

  function MergeBuckets(maxVersion: nat, older: Bucket, newer: Bucket, shadows: seq<Bucket>, keepDead: bool): Outcome<Bucket> {
    var version := MergeVersion(older, newer, shadows);
    if version > maxVersion then Error(VersionTooHigh)
    else if version >= FIRST_PROTOCOL_SHADOWS_REMOVED && shadows != [] then Error(ShadowsNotSupported)
    else
      var entries :- MergeEntries(older.entries, newer.entries, ModeFor(version, shadows, keepDead));
      Ok(Bucket(MetaFor(version), entries))
  }

  // ----- the merge, one key at a time -----

  function Emit(mode: MergeMode, k: LedgerKey, s: Slot): Slot {
    if s.Absent? || Dropped(mode, k, s) then Absent else s
  }

  /** The smallest key not yet merged. */
  function LowKey(o: seq<BucketEntry>, n: seq<BucketEntry>): LedgerKey
    requires o != [] || n != []
  {
    if TakesOld(o, n) then o[0].key else n[0].key
  }

  /** A step consumes exactly the entries of the smallest key. */
  lemma StepConsumes(o: seq<BucketEntry>, n: seq<BucketEntry>, k: LedgerKey)
    requires Sorted(o) && Sorted(n) && (o != [] || n != [])
    ensures var low := LowKey(o, n);
      && Sorted(OldRest(o, n)) && Sorted(NewRest(o, n))
      && Above(low, OldRest(o, n)) && Above(low, NewRest(o, n))
      && Find(OldRest(o, n), k) == (if k == low then Absent else Find(o, k))
      && Find(NewRest(o, n), k) == (if k == low then Absent else Find(n, k))
  {
    if o != [] { SortedTail(o); }
    if n != [] { SortedTail(n); }
    if o != [] && n != [] { LessTotal(o[0].key, n[0].key); }
    if !TakesOld(o, n) { AboveAbsent(n[0].key, o); }
    if !TakesNew(o, n) { AboveAbsent(o[0].key, n); }
  }

  lemma StepShrinks(o: seq<BucketEntry>, n: seq<BucketEntry>)
    requires o != [] || n != []
    ensures |OldRest(o, n)| + |NewRest(o, n)| < |o| + |n|
  {
  }

  /** A step puts at most one entry: the table's result for the smallest key. */
  lemma StepEmits(o: seq<BucketEntry>, n: seq<BucketEntry>, mode: MergeMode)
    requires Sorted(o) && Sorted(n) && (o != [] || n != [])
    ensures var low := LowKey(o, n);
      var s := Combine(Find(o, low), Find(n, low));
      && (StepPuts(o, n, mode).Ok? ==>
            StepPuts(o, n, mode).value == (if Emit(mode, low, s).Absent? then [] else [EntryOf(low, s)]))
      && (StepPuts(o, n, mode).Ok? <==>
            && (Find(o, low).Init? || Find(n, low).Init? ==> mode.version >= FIRST_PROTOCOL_SUPPORTING_INITENTRY)
            && !Clash(Find(o, low), Find(n, low)))
  {
    if o != [] && n != [] { LessTotal(o[0].key, n[0].key); }
    if !TakesOld(o, n) { AboveAbsent(n[0].key, o); }
    if !TakesNew(o, n) { AboveAbsent(o[0].key, n); }
  }

  lemma FindPrepend(put: seq<BucketEntry>, rest: seq<BucketEntry>, k: LedgerKey)
    requires |put| <= 1
    ensures Find(put + rest, k) == if put != [] && put[0].key == k then SlotOf(put[0]) else Find(rest, k)
    ensures Sorted(rest) && (put != [] ==> Above(put[0].key, rest)) ==> Sorted(put + rest)
  {
    assert (put + rest)[|put|..] == rest;
  }

  lemma NothingFound(k: LedgerKey)
    ensures Find([], k) == Absent
  {
  }

  /** The output says about each key what the table says of the inputs, unless that is shadowed
      or is a tombstone at the last level. */
  lemma {:induction false} MergeSlots(o: seq<BucketEntry>, n: seq<BucketEntry>, mode: MergeMode, k: LedgerKey)
    requires Sorted(o) && Sorted(n) && MergeEntries(o, n, mode).Ok?
    ensures var r := MergeEntries(o, n, mode).value;
      Find(r, k) == Emit(mode, k, Combine(Find(o, k), Find(n, k)))
    decreases |o| + |n|
  {
    hide Find, StepPuts, TakesOld, TakesNew, Sorted, Above, Dropped;
    NothingFound(k);
    if o != [] || n != [] {
      StepConsumes(o, n, k);
      StepEmits(o, n, mode);
      StepShrinks(o, n);
      MergeSlots(OldRest(o, n), NewRest(o, n), mode, k);
      var put, rest := StepPuts(o, n, mode).value, MergeEntries(OldRest(o, n), NewRest(o, n), mode).value;
      assert MergeEntries(o, n, mode).value == put + rest;
      FindPrepend(put, rest, k);
    }
  }

  /** The output starts above everything the inputs start above. */
  lemma MergeAbove(o: seq<BucketEntry>, n: seq<BucketEntry>, mode: MergeMode, low: LedgerKey)
    requires Sorted(o) && Sorted(n) && MergeEntries(o, n, mode).Ok?
    requires Above(low, o) && Above(low, n)
    ensures Above(low, MergeEntries(o, n, mode).value)
  {
    var r := MergeEntries(o, n, mode).value;
    if r != [] {
      MergeSlots(o, n, mode, r[0].key);
      if Find(o, r[0].key) != Absent {
        FoundAbove(low, o, r[0].key);
      } else {
        FoundAbove(low, n, r[0].key);
      }
    }
  }

  /** The output is strictly sorted, so no key occurs in it twice. */
  lemma {:induction false} MergeSorted(o: seq<BucketEntry>, n: seq<BucketEntry>, mode: MergeMode)
    requires Sorted(o) && Sorted(n) && MergeEntries(o, n, mode).Ok?
    ensures Sorted(MergeEntries(o, n, mode).value)
    decreases |o| + |n|
  {
    if o != [] || n != [] {
      var low, o', n' := LowKey(o, n), OldRest(o, n), NewRest(o, n);
      StepConsumes(o, n, low);
      MergeSorted(o', n', mode);
      MergeAbove(o', n', mode, low);
      PrependSorted(o, n, mode, MergeEntries(o', n', mode).value);
    }
  }

  lemma PrependSorted(o: seq<BucketEntry>, n: seq<BucketEntry>, mode: MergeMode, rest: seq<BucketEntry>)
    requires Sorted(o) && Sorted(n) && (o != [] || n != []) && StepPuts(o, n, mode).Ok?
    requires Sorted(rest) && Above(LowKey(o, n), rest)
    ensures Sorted(StepPuts(o, n, mode).value + rest)
  {
    StepEmits(o, n, mode);
    FindPrepend(StepPuts(o, n, mode).value, rest, LowKey(o, n));
  }

  /** No INIT entry meets a protocol without them, and no new INIT meets an old non-DEAD. */
  ghost predicate Mergeable(o: seq<BucketEntry>, n: seq<BucketEntry>, version: nat) {
    forall k ::
      && (Find(o, k).Init? || Find(n, k).Init? ==> version >= FIRST_PROTOCOL_SUPPORTING_INITENTRY)
      && !Clash(Find(o, k), Find(n, k))
  }

  lemma NothingMergeable(version: nat)
    ensures Mergeable([], [], version)
  {
  }

  /** A merge throws exactly when some key makes it throw. */
  lemma {:induction false} MergeOkIff(o: seq<BucketEntry>, n: seq<BucketEntry>, mode: MergeMode)
    requires Sorted(o) && Sorted(n)
    ensures MergeEntries(o, n, mode).Ok? <==> Mergeable(o, n, mode.version)
    decreases |o| + |n|
  {
    hide Find, StepPuts, TakesOld, TakesNew, Sorted, Above, Emit;
    if o == [] && n == [] {
      NothingMergeable(mode.version);
    } else {
      var low := LowKey(o, n);
      var o', n' := OldRest(o, n), NewRest(o, n);
      forall k { StepConsumes(o, n, k); }
      StepConsumes(o, n, low);
      StepEmits(o, n, mode);
      StepShrinks(o, n);
      MergeOkIff(o', n', mode);
      if Mergeable(o, n, mode.version) {
        forall k ensures
          && (Find(o', k).Init? || Find(n', k).Init? ==> mode.version >= FIRST_PROTOCOL_SUPPORTING_INITENTRY)
          && !Clash(Find(o', k), Find(n', k))
        {
          if k != low { assert Find(o', k) == Find(o, k) && Find(n', k) == Find(n, k); }
        }
      }
      if Mergeable(o', n', mode.version) && StepPuts(o, n, mode).Ok? {
        forall k ensures
          && (Find(o, k).Init? || Find(n, k).Init? ==> mode.version >= FIRST_PROTOCOL_SUPPORTING_INITENTRY)
          && !Clash(Find(o, k), Find(n, k))
        {
          if k != low { assert Find(o', k) == Find(o, k) && Find(n', k) == Find(n, k); }
        }
      }
    }
  }

  /** A key is shadowed exactly when some shadow holds it. */
  lemma {:induction false} ShadowedExists(bs: seq<Bucket>, k: LedgerKey)
    ensures Shadowed(bs, k) <==> exists j :: 0 <= j < |bs| && At(bs[j], k) != Absent
  {
    if bs != [] {
      ShadowedExists(bs[1..], k);
      if Shadowed(bs[1..], k) {
        var j :| 0 <= j < |bs[1..]| && At(bs[1..][j], k) != Absent;
        assert At(bs[j + 1], k) != Absent;
      }
      if j :| 0 < j < |bs| && At(bs[j], k) != Absent {
        assert At(bs[1..][j - 1], k) != Absent;
      }
    }
  }

  // ----- laws of whole buckets -----

  predicate VersionsAtMost(bs: seq<Bucket>, v: nat) {
    forall j :: 0 <= j < |bs| ==> Version(bs[j]) <= v
  }

  lemma {:induction false} MergeVersionBounds(older: Bucket, newer: Bucket, shadows: seq<Bucket>)
    ensures MergeVersion(older, newer, shadows) >= Max(Version(older), Version(newer))
    ensures forall v :: v >= Version(older) && v >= Version(newer) && VersionsAtMost(shadows, v) ==>
              MergeVersion(older, newer, shadows) <= v
    ensures forall j :: 0 <= j < |shadows| && Version(shadows[j]) < FIRST_PROTOCOL_SHADOWS_REMOVED ==>
              Version(shadows[j]) <= MergeVersion(older, newer, shadows)
    ensures Max(Version(older), Version(newer)) < FIRST_PROTOCOL_SHADOWS_REMOVED ==>
              MergeVersion(older, newer, shadows) < FIRST_PROTOCOL_SHADOWS_REMOVED
    ensures MergeVersion(older, newer, shadows) == Max(Version(older), Version(newer))
      || exists j :: 0 <= j < |shadows| && Version(shadows[j]) == MergeVersion(older, newer, shadows) < FIRST_PROTOCOL_SHADOWS_REMOVED
  {
    if shadows != [] {
      var before := shadows[..|shadows| - 1];
      MergeVersionBounds(older, newer, before);
      assert forall v :: VersionsAtMost(shadows, v) ==> VersionsAtMost(before, v) && Version(shadows[|shadows| - 1]) <= v;
    }
  }

  /** When the two slots of a key cannot be merged at a version. */
  predicate Refused(o: Slot, n: Slot, version: nat) {
    (version < 11 && (o.Init? || n.Init?)) || (n.Init? && (o.Init? || o.Live?))
  }

  /** What a merge says about a key whose merged slot is `s`: nothing, if that is a tombstone not to be
      kept, or if some shadow holds the key and `s` is LIVE or the merge is from before protocol 11. */
  ghost predicate LeftOut(s: Slot, shadows: seq<Bucket>, k: LedgerKey, version: nat, keepDead: bool) {
    || (s.Dead? && !keepDead)
    || ((s.Live? || version < 11) && exists j :: 0 <= j < |shadows| && At(shadows[j], k) != Absent)
  }

  /** The whole merge, key by key: when it is refused and why, its version, and its contents. */
  lemma MergeExactly(maxVersion: nat, older: Bucket, newer: Bucket, shadows: seq<Bucket>, keepDead: bool)
    requires Sorted(older.entries) && Sorted(newer.entries)
    ensures var r, v := MergeBuckets(maxVersion, older, newer, shadows, keepDead), MergeVersion(older, newer, shadows);
      && (r == Error(VersionTooHigh) <==> v > maxVersion)
      && (r == Error(ShadowsNotSupported) <==> v <= maxVersion && v >= 12 && shadows != [])
      && (r.Ok? <==> v <= maxVersion && (v >= 12 ==> shadows == []) && forall k :: !Refused(At(older, k), At(newer, k), v))
      && (r.Ok? ==>
            && Sorted(r.value.entries) && r.value.meta == (if v >= 11 then Some(v) else None)
            && forall k ::
                 var s := Combine(At(older, k), At(newer, k));
                 At(r.value, k) == if LeftOut(s, shadows, k, v, keepDead) then Absent else s)
  {
    hide MergeEntries, Sorted, Shadowed, MergeVersion, Find, Combine;
    var v := MergeVersion(older, newer, shadows);
    var mode := ModeFor(v, shadows, keepDead);
    MergeOkIff(older.entries, newer.entries, mode);
    MergeFailsSo(older.entries, newer.entries, mode);
    assert Mergeable(older.entries, newer.entries, v) <==> forall k :: !Refused(At(older, k), At(newer, k), v) by {
      MergeableIff(older, newer, v);
    }
    var r := MergeBuckets(maxVersion, older, newer, shadows, keepDead);
    if r.Ok? {
      MergeSorted(older.entries, newer.entries, mode);
      forall k ensures var s := Combine(At(older, k), At(newer, k));
        At(r.value, k) == if LeftOut(s, shadows, k, v, keepDead) then Absent else s
      {
        MergeSlots(older.entries, newer.entries, mode, k);
        ShadowedExists(shadows, k);
      }
    }
  }

  lemma MergeableIff(older: Bucket, newer: Bucket, v: nat)
    ensures Mergeable(older.entries, newer.entries, v) <==> forall k :: !Refused(At(older, k), At(newer, k), v)
  {
    hide Find;
    if forall k :: !Refused(At(older, k), At(newer, k), v) {
      forall k ensures
        && (Find(older.entries, k).Init? || Find(newer.entries, k).Init? ==> v >= FIRST_PROTOCOL_SUPPORTING_INITENTRY)
        && !Clash(Find(older.entries, k), Find(newer.entries, k))
      {
        assert !Refused(At(older, k), At(newer, k), v);
      }
    }
  }

  /** The entries of a merge fail only as illegal or malformed. */
  lemma {:induction false} MergeFailsSo(o: seq<BucketEntry>, n: seq<BucketEntry>, mode: MergeMode)
    ensures var r := MergeEntries(o, n, mode); r.Error? ==> r.why == IllegalEntry || r.why == MalformedBucket
    decreases |o| + |n|
  {
    hide Less;
    if o != [] || n != [] { MergeFailsSo(OldRest(o, n), NewRest(o, n), mode); }
  }

  /** A merge of well-formed buckets is well formed. */
  lemma MergeWellFormed(maxVersion: nat, older: Bucket, newer: Bucket, shadows: seq<Bucket>, keepDead: bool)
    requires WellFormed(older) && WellFormed(newer)
    requires MergeBuckets(maxVersion, older, newer, shadows, keepDead).Ok?
    ensures WellFormed(MergeBuckets(maxVersion, older, newer, shadows, keepDead).value)
  {
    var version := MergeVersion(older, newer, shadows);
    var mode := ModeFor(version, shadows, keepDead);
    var r := MergeEntries(older.entries, newer.entries, mode).value;
    MergeVersionBounds(older, newer, shadows);
    MergeSorted(older.entries, newer.entries, mode);
    if version < FIRST_PROTOCOL_SUPPORTING_INITENTRY && HasInit(r) {
      var i :| 0 <= i < |r| && r[i].InitEntry?;
      FindAtIndex(r, i);
      MergeSlots(older.entries, newer.entries, mode, r[i].key);
      NoInitSlot(older, r[i].key);
      NoInitSlot(newer, r[i].key);
    }
  }

  /** A key on which merging first and applying both parts in turn differ: it existed
      before, and the merge forgot that it was deleted. */
  predicate Revives(m: Ledger, older: Bucket, newer: Bucket, keepDead: bool, k: LedgerKey) {
    && k in m
    && var o, n := At(older, k), At(newer, k);
      (o.Init? && n.Dead?) || (!keepDead && Combine(o, n).Dead?)
  }

  lemma RevivesIff(m: Option<Body>, o: Slot, n: Slot, keepDead: bool)
    requires !Clash(o, n)
    ensures var once := if Combine(o, n).Dead? && !keepDead then Absent else Combine(o, n);
      Overlay(m, once) == Overlay(Overlay(m, o), n)
      <==> !(m.Some? && ((o.Init? && n.Dead?) || (!keepDead && Combine(o, n).Dead?)))
  {
  }

  /** Applying a merge is applying its parts, old then new, if and only if no key of the base
      was created in the old part and deleted in the new one (or just deleted, when
      tombstones are dropped). */
  lemma MergeMeaningIff(maxVersion: nat, older: Bucket, newer: Bucket, keepDead: bool, m: Ledger)
    requires WellFormed(older) && WellFormed(newer)
    requires MergeBuckets(maxVersion, older, newer, [], keepDead).Ok?
    ensures var merged := MergeBuckets(maxVersion, older, newer, [], keepDead).value;
      Apply(m, merged.entries) == Apply(Apply(m, older.entries), newer.entries)
      <==> forall k :: !Revives(m, older, newer, keepDead, k)
  {
    var once := Apply(m, MergeBuckets(maxVersion, older, newer, [], keepDead).value.entries);
    var twice := Apply(Apply(m, older.entries), newer.entries);
    forall k ensures Lookup(once, k) == Lookup(twice, k) <==> !Revives(m, older, newer, keepDead, k) {
      MergeMeaningAt(maxVersion, older, newer, keepDead, m, k);
    }
    if forall k :: !Revives(m, older, newer, keepDead, k) {
      SameLookupsSameLedger(once, twice);
    }
  }

  lemma MergeMeaningAt(maxVersion: nat, older: Bucket, newer: Bucket, keepDead: bool, m: Ledger, k: LedgerKey)
    requires WellFormed(older) && WellFormed(newer)
    requires MergeBuckets(maxVersion, older, newer, [], keepDead).Ok?
    ensures var merged := MergeBuckets(maxVersion, older, newer, [], keepDead).value;
      Lookup(Apply(m, merged.entries), k) == Lookup(Apply(Apply(m, older.entries), newer.entries), k)
      <==> !Revives(m, older, newer, keepDead, k)
  {
    var merged := MergeBuckets(maxVersion, older, newer, [], keepDead).value;
    var mode := ModeFor(MergeVersion(older, newer, []), [], keepDead);
    MergeSorted(older.entries, newer.entries, mode);
    MergeOkIff(older.entries, newer.entries, mode);
    MergeSlots(older.entries, newer.entries, mode, k);
    ApplyLookup(m, merged.entries, k);
    ApplyLookup(m, older.entries, k);
    ApplyLookup(Apply(m, older.entries), newer.entries, k);
    assert !Clash(At(older, k), At(newer, k));
    RevivesIff(Lookup(m, k), At(older, k), At(newer, k), keepDead);
  }
}
