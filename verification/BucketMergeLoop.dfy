/** The merge as it runs: two input iterators, shadow iterators and an output iterator, advanced
    in one pass. */
module BucketMergeLoop {
  import opened Outcomes
  import opened LedgerKeys
  import opened Buckets
  import opened BucketMerge

  /** Absorbs entries in key order. The newest one is buffered, so that an entry with the same
      key can still replace it. */
  class BucketOutputIterator {
    const keepDeadEntries: bool
    const version: nat
    var written: seq<BucketEntry>
    var buffered: Option<BucketEntry>

    function Contents(): seq<BucketEntry>
      reads this
    {
      written + if buffered.Some? then [buffered.value] else []
    }

    constructor (keepDeadEntries: bool, version: nat)
      ensures Contents() == []
      ensures this.keepDeadEntries == keepDeadEntries && this.version == version
    {
      this.keepDeadEntries := keepDeadEntries;
      this.version := version;
      written, buffered := [], None;
    }

    predicate Drops(e: BucketEntry) { !keepDeadEntries && e.DeadEntry? }

    method Put(e: BucketEntry) returns (ok: bool)
      requires buffered.Some? && !Drops(e) ==> !Less(e.key, buffered.value.key)
      modifies this
      ensures ok <==> (e.InitEntry? ==> version >= FIRST_PROTOCOL_SUPPORTING_INITENTRY)
      ensures !ok || Drops(e) ==> Contents() == old(Contents())
      ensures ok && !Drops(e) ==>
        var c := old(Contents());
        if old(buffered).Some? && c[|c| - 1].key == e.key
        then Contents() == c[..|c| - 1] + [e] else Contents() == c + [e]
      ensures ok && !Drops(e) ==> buffered == Some(e)
      ensures !ok || Drops(e) ==> buffered == old(buffered)
    {
      ok := e.InitEntry? ==> version >= FIRST_PROTOCOL_SUPPORTING_INITENTRY;
      if !ok || Drops(e) { return; }
      if buffered.Some? {
        LessTotal(e.key, buffered.value.key);
        if Less(buffered.value.key, e.key) {
          written := written + [buffered.value];
        }
      }
      buffered := Some(e);
    }

    /** An output without entries and without a meta entry is the empty bucket. */
    method GetBucket() returns (b: Bucket)
      modifies this
      ensures b == Bucket(MetaFor(version), old(Contents()))
    {
      if buffered.Some? {
        written := written + [buffered.value];
        buffered := None;
      }
      b := if MetaFor(version).None? && written == [] then EmptyBucket else Bucket(MetaFor(version), written);
    }
  }

  lemma {:induction false} SortedAt(es: seq<BucketEntry>, i: nat, j: nat)
    requires Sorted(es) && i < j < |es|
    ensures Less(es[i].key, es[j].key)
  {
    if i > 0 {
      SortedAt(es[1..], i - 1, j - 1);
    } else if j > 1 {
      SortedAt(es[1..], 0, j - 1);
      LessTransitive(es[0].key, es[1].key, es[j].key);
    }
  }

  /** A cursor that has passed exactly the smaller keys decides whether the key is present. */
  lemma CursorDecides(es: seq<BucketEntry>, c: nat, k: LedgerKey)
    requires Sorted(es) && c <= |es|
    requires forall x :: 0 <= x < c ==> Less(es[x].key, k)
    requires c < |es| ==> !Less(es[c].key, k)
    ensures Find(es, k) != Absent <==> c < |es| && !Less(k, es[c].key)
  {
    if c < |es| && !Less(k, es[c].key) {
      LessTotal(k, es[c].key);
      FindAtIndex(es, c);
    } else if Find(es, k) != Absent {
      var x := FindWitness(es, k);
      LessTotal(k, k);
      if c < x { SortedAt(es, c, x); }
    }
  }

  ghost predicate AllSorted(bs: seq<Bucket>) {
    forall j :: 0 <= j < |bs| ==> Sorted(bs[j].entries)
  }

  /** Each shadow iterator has passed only keys smaller than `k`. */
  ghost predicate CursorsBelow(bs: seq<Bucket>, cursors: seq<nat>, k: LedgerKey) {
    |cursors| == |bs| &&
    forall j :: 0 <= j < |bs| ==> CursorBelow(bs[j].entries, cursors[j], k)
  }

  ghost predicate CursorBelow(es: seq<BucketEntry>, c: nat, k: LedgerKey) {
    c <= |es| && forall x :: 0 <= x < c ==> Less(es[x].key, k)
  }

  /** Advance one shadow iterator past the keys smaller than `k`. */
  method Advance(es: seq<BucketEntry>, cursor: nat, k: LedgerKey) returns (c: nat)
    requires Sorted(es) && CursorBelow(es, cursor, k)
    ensures CursorBelow(es, c, k)
    ensures Find(es, k) != Absent <==> c < |es| && !Less(k, es[c].key)
  {
    hide Less, Find, Sorted;
    c := cursor;
    while c < |es| && Less(es[c].key, k)
      invariant CursorBelow(es, c, k)
    {
      c := c + 1;
    }
    CursorDecides(es, c, k);
  }

  /** Scan the shadows for the key of an entry; later iterators rest once it is found. */
  method ScanShadows(shadows: seq<Bucket>, cursors: seq<nat>, k: LedgerKey) returns (shadowed: bool, cs: seq<nat>)
    requires AllSorted(shadows) && CursorsBelow(shadows, cursors, k)
    ensures shadowed <==> Shadowed(shadows, k)
    ensures CursorsBelow(shadows, cs, k)
  {
    cs, shadowed := cursors, false;
    ShadowedExists(shadows, k);
    var j := 0;
    while j < |shadows| && !shadowed
      invariant j <= |shadows| && CursorsBelow(shadows, cs, k)
      invariant !shadowed ==> forall x :: 0 <= x < j ==> At(shadows[x], k) == Absent
      invariant shadowed ==> Shadowed(shadows, k)
      decreases |shadows| - j, !shadowed
    {
      var es := shadows[j].entries;
      var c := Advance(es, cs[j], k);
      cs := cs[j := c];
      if c < |es| && !Less(k, es[c].key) {
        assert At(shadows[j], k) != Absent;
        shadowed := true;
      } else {
        j := j + 1;
      }
    }
  }

  /** Everything put so far lies below `k`. */
  ghost predicate OutBelow(c: seq<BucketEntry>, k: LedgerKey) {
    c != [] ==> Less(c[|c| - 1].key, k)
  }

  /** Put an entry above everything put so far. */
  method PutAbove(out: BucketOutputIterator, e: BucketEntry)
    requires OutBelow(out.Contents(), e.key) && (out.buffered.None? ==> out.written == [])
    requires e.InitEntry? ==> out.version >= FIRST_PROTOCOL_SUPPORTING_INITENTRY
    modifies out
    ensures out.Contents() == old(out.Contents()) + if out.Drops(e) then [] else [e]
    ensures out.buffered.None? ==> out.written == []
  {
    hide Less;
    if out.buffered.Some? {
      assert out.Contents()[|out.Contents()| - 1] == out.buffered.value;
      LessTotal(out.buffered.value.key, e.key);
    }
    var ok := out.Put(e);
  }

  /** Put an entry, unless it is shadowed and may be dropped for that. */
  method MaybePut(out: BucketOutputIterator, e: BucketEntry, mode: MergeMode, cursors: seq<nat>) returns (cs: seq<nat>)
    requires AllSorted(mode.shadows) && CursorsBelow(mode.shadows, cursors, e.key)
    requires out.keepDeadEntries == mode.keepDead && out.version == mode.version && LegalEntry(mode, e)
    requires OutBelow(out.Contents(), e.key) && (out.buffered.None? ==> out.written == [])
    modifies out
    ensures out.Contents() == old(out.Contents()) + Kept(mode, e)
    ensures Kept(mode, e) == []
      <==> || (e.DeadEntry? && !mode.keepDead)
           || ((exists j :: 0 <= j < |mode.shadows| && At(mode.shadows[j], e.key) != Absent) && (e.LiveEntry? || !mode.keepLifecycle))
    ensures out.buffered.None? ==> out.written == []
    ensures CursorsBelow(mode.shadows, cs, e.key)
  {
    hide Less, Shadowed, CursorsBelow, AllSorted, OutBelow;
    ShadowedExists(mode.shadows, e.key);
    cs := cursors;
    if !(mode.keepLifecycle && (e.InitEntry? || e.DeadEntry?)) {
      var shadowed;
      shadowed, cs := ScanShadows(mode.shadows, cursors, e.key);
      if shadowed { return; }
    }
    PutAbove(out, e);
  }

  /** The version of a merge, or why it is refused. */
  method CalculateMergeProtocolVersion(maxVersion: nat, older: Bucket, newer: Bucket, shadows: seq<Bucket>)
    returns (r: Outcome<nat>)
    ensures var v := MergeVersion(older, newer, shadows);
      r == if v > maxVersion then Error(VersionTooHigh)
           else if v >= FIRST_PROTOCOL_SHADOWS_REMOVED && shadows != [] then Error(ShadowsNotSupported)
           else Ok(v)
  {
    var version := if Version(older) < Version(newer) then Version(newer) else Version(older);
    for j := 0 to |shadows|
      invariant version == MergeVersion(older, newer, shadows[..j])
    {
      var v := Version(shadows[j]);
      assert shadows[..j + 1][..j] == shadows[..j];
      if v < FIRST_PROTOCOL_SHADOWS_REMOVED && version < v { version := v; }
    }
    assert shadows[..|shadows|] == shadows;
    if version > maxVersion { return Error(VersionTooHigh); }
    if version >= FIRST_PROTOCOL_SHADOWS_REMOVED && shadows != [] { return Error(ShadowsNotSupported); }
    r := Ok(version);
  }

  function Prepend(c: seq<BucketEntry>, r: Outcome<seq<BucketEntry>>): Outcome<seq<BucketEntry>> {
    if r.Ok? then Ok(c + r.value) else r
  }

  /** One step of the specification. */
  lemma StepPrepends(c: seq<BucketEntry>, o: seq<BucketEntry>, n: seq<BucketEntry>, mode: MergeMode)
    requires o != [] || n != []
    ensures StepPuts(o, n, mode).Error? ==> Prepend(c, MergeEntries(o, n, mode)) == Error(StepPuts(o, n, mode).why)
    ensures StepPuts(o, n, mode).Ok? ==>
      Prepend(c, MergeEntries(o, n, mode)) ==
      Prepend(c + StepPuts(o, n, mode).value, MergeEntries(OldRest(o, n), NewRest(o, n), mode))
  {
    hide StepPuts, OldRest, NewRest;
    if StepPuts(o, n, mode).Ok? && MergeEntries(OldRest(o, n), NewRest(o, n), mode).Ok? {
      var put, rest := StepPuts(o, n, mode).value, MergeEntries(OldRest(o, n), NewRest(o, n), mode).value;
      assert c + (put + rest) == (c + put) + rest;
    }
  }

  /** What the iterators have passed lies below what remains. */
  ghost predicate PassedBelow(o: seq<BucketEntry>, n: seq<BucketEntry>, c: seq<BucketEntry>, bs: seq<Bucket>, cursors: seq<nat>) {
    && |cursors| == |bs| && (forall j :: 0 <= j < |bs| ==> cursors[j] <= |bs[j].entries|)
    && (o != [] || n != [] ==> OutBelow(c, LowKey(o, n)) && CursorsBelow(bs, cursors, LowKey(o, n)))
  }

  lemma PassedAdvances(o: seq<BucketEntry>, n: seq<BucketEntry>, c: seq<BucketEntry>, put: seq<BucketEntry>,
                       bs: seq<Bucket>, cursors: seq<nat>)
    requires Sorted(o) && Sorted(n) && (o != [] || n != [])
    requires OutBelow(c, LowKey(o, n)) && CursorsBelow(bs, cursors, LowKey(o, n))
    requires |put| <= 1 && (put != [] ==> put[0].key == LowKey(o, n))
    ensures PassedBelow(OldRest(o, n), NewRest(o, n), c + put, bs, cursors)
  {
    hide Less, Sorted, LowKey, OldRest, NewRest;
    var low, o', n' := LowKey(o, n), OldRest(o, n), NewRest(o, n);
    StepConsumes(o, n, low);
    if o' != [] || n' != [] {
      var low' := LowKey(o', n');
      assert Less(low, low') by { LowRises(low, o', n'); }
      if put == [] { assert c + put == c; }
      if c != [] && put == [] { LessTransitive(c[|c| - 1].key, low, low'); }
      forall j | 0 <= j < |bs| ensures CursorBelow(bs[j].entries, cursors[j], low') {
        assert CursorBelow(bs[j].entries, cursors[j], low);
        forall x | 0 <= x < cursors[j] ensures Less(bs[j].entries[x].key, low') {
          LessTransitive(bs[j].entries[x].key, low, low');
        }
      }
    }
  }

  lemma LowRises(low: LedgerKey, o: seq<BucketEntry>, n: seq<BucketEntry>)
    requires Above(low, o) && Above(low, n) && (o != [] || n != [])
    ensures Less(low, LowKey(o, n))
  {
  }

  /** The key operation: merge an old and a new bucket in one pass. */
  method Merge(maxVersion: nat, older: Bucket, newer: Bucket, shadows: seq<Bucket>, keepDeadEntries: bool)
    returns (r: Outcome<Bucket>)
    requires Sorted(older.entries) && Sorted(newer.entries) && AllSorted(shadows)
    ensures r == MergeBuckets(maxVersion, older, newer, shadows, keepDeadEntries)
  {
    hide Sorted, Less, StepPuts, OldRest, NewRest, LowKey, AllSorted, PassedBelow, MergeEntries, Kept, LegalEntry;
    var version := CalculateMergeProtocolVersion(maxVersion, older, newer, shadows);
    if version.Error? { return Error(version.why); }
    var mode := ModeFor(version.value, shadows, keepDeadEntries);
    var out := new BucketOutputIterator(keepDeadEntries, version.value);
    var o, n := older.entries, newer.entries;
    var oi, ni := 0, 0;
    var cursors: seq<nat> := seq(|shadows|, _ => 0);
    assert o[oi..] == o && n[ni..] == n;
    StartPassed(o, n, shadows, cursors);
    assert Prepend([], MergeEntries(o, n, mode)) == MergeEntries(o, n, mode) by { PrependNothing(MergeEntries(o, n, mode)); }
    while oi < |o| || ni < |n|
      invariant oi <= |o| && ni <= |n| && fresh(out)
      invariant Sorted(o[oi..]) && Sorted(n[ni..])
      invariant MergeEntries(o, n, mode) == Prepend(out.Contents(), MergeEntries(o[oi..], n[ni..], mode))
      invariant PassedBelow(o[oi..], n[ni..], out.Contents(), shadows, cursors)
      invariant out.buffered.None? ==> out.written == []
      decreases |o| - oi + |n| - ni
    {
      ghost var c, o', n' := out.Contents(), o[oi..], n[ni..];
      StepPrepends(c, o', n', mode);
      StepEmits(o', n', mode);
      StepConsumes(o', n', LowKey(o', n'));
      var step, takeOld, takeNew := MergeStep(o, n, oi, ni, mode);
      if step.Error? { return Error(step.why); }
      cursors := PutStep(out, step.value, mode, cursors, o', n');
      if takeOld { oi := oi + 1; }
      if takeNew { ni := ni + 1; }
    }
    assert MergeEntries([], [], mode) == Ok([]) by { MergeNothing(mode); }
    assert o[oi..] == [] && n[ni..] == [];
    assert out.Contents() + [] == out.Contents();
    var b := out.GetBucket();
    r := Ok(b);
  }

  lemma PrependNothing(r: Outcome<seq<BucketEntry>>)
    ensures Prepend([], r) == r
  {
    if r.Ok? { assert [] + r.value == r.value; }
  }

  lemma MergeNothing(mode: MergeMode)
    ensures MergeEntries([], [], mode) == Ok([])
  {
  }

  lemma StartPassed(o: seq<BucketEntry>, n: seq<BucketEntry>, bs: seq<Bucket>, cursors: seq<nat>)
    requires |cursors| == |bs| && forall j :: 0 <= j < |bs| ==> cursors[j] == 0
    ensures PassedBelow(o, n, [], bs, cursors)
  {
  }

  /** What the iterators take next, and the entry that gives before shadows are consulted. */
  method MergeStep(o: seq<BucketEntry>, n: seq<BucketEntry>, oi: nat, ni: nat, mode: MergeMode)
    returns (put: Outcome<Option<BucketEntry>>, takeOld: bool, takeNew: bool)
    requires oi <= |o| && ni <= |n| && (oi < |o| || ni < |n|)
    ensures takeOld ==> oi < |o|
    ensures takeNew ==> ni < |n|
    ensures takeOld || takeNew
    ensures o[if takeOld then oi + 1 else oi..] == OldRest(o[oi..], n[ni..])
    ensures n[if takeNew then ni + 1 else ni..] == NewRest(o[oi..], n[ni..])
    ensures match StepPuts(o[oi..], n[ni..], mode)
      case Error(why) => put == Error(why)
      case Ok(es) => put.Ok? && es == (if put.value.Some? then Kept(mode, put.value.value) else [])
                     && (put.value.Some? ==> LegalEntry(mode, put.value.value))
    ensures put.Ok? && put.value.Some? ==> put.value.value.key == LowKey(o[oi..], n[ni..])
  {
    hide Kept;
    takeOld, takeNew := false, false;
    if ni == |n| || (oi < |o| && Less(o[oi].key, n[ni].key)) {
      takeOld := true;
      put := if LegalEntry(mode, o[oi]) then Ok(Some(o[oi])) else Error(IllegalEntry);
    } else if oi == |o| || Less(n[ni].key, o[oi].key) {
      takeNew := true;
      put := if LegalEntry(mode, n[ni]) then Ok(Some(n[ni])) else Error(IllegalEntry);
    } else {
      takeOld, takeNew := true, true;
      var old', new' := o[oi], n[ni];
      LessTotal(old'.key, new'.key);
      if !LegalEntry(mode, old') || !LegalEntry(mode, new') {
        put := Error(IllegalEntry);
      } else if new'.InitEntry? {
        put := if old'.DeadEntry? then Ok(Some(LiveEntry(new'.key, new'.body))) else Error(MalformedBucket);
      } else if old'.InitEntry? {
        put := if new'.LiveEntry? then Ok(Some(InitEntry(new'.key, new'.body))) else Ok(None);
      } else {
        put := Ok(Some(new'));
      }
    }
  }

  method PutStep(out: BucketOutputIterator, put: Option<BucketEntry>, mode: MergeMode, cursors: seq<nat>,
                 ghost o: seq<BucketEntry>, ghost n: seq<BucketEntry>) returns (cs: seq<nat>)
    requires AllSorted(mode.shadows) && Sorted(o) && Sorted(n) && (o != [] || n != [])
    requires PassedBelow(o, n, out.Contents(), mode.shadows, cursors)
    requires out.keepDeadEntries == mode.keepDead && out.version == mode.version
    requires put.Some? ==> LegalEntry(mode, put.value) && put.value.key == LowKey(o, n)
    requires out.buffered.None? ==> out.written == []
    modifies out
    ensures out.Contents() == old(out.Contents()) + if put.Some? then Kept(mode, put.value) else []
    ensures out.buffered.None? ==> out.written == []
    ensures PassedBelow(OldRest(o, n), NewRest(o, n), out.Contents(), mode.shadows, cs)
  {
    hide Sorted, Less, OldRest, NewRest, LowKey, AllSorted, CursorsBelow, Dropped, LegalEntry, OutBelow;
    ghost var c := out.Contents();
    ghost var kept := if put.Some? then Kept(mode, put.value) else [];
    cs := cursors;
    if put.Some? { cs := MaybePut(out, put.value, mode, cursors); } else { assert c + [] == c; }
    PassedAdvances(o, n, c, kept, mode.shadows, cs);
  }
}
