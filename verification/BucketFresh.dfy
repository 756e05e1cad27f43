/** The bucket of one ledger's changes. */
module BucketFresh {
  import opened LedgerKeys
  import opened Buckets
  import opened BucketMerge

  datatype LedgerEntry = LedgerEntry(key: LedgerKey, body: Body)

  /** What closing a ledger created, updated and deleted. */
  datatype Batch = Batch(init: seq<LedgerEntry>, live: seq<LedgerEntry>, dead: seq<LedgerKey>)

  function Created(useInit: bool, e: LedgerEntry): BucketEntry {
    if useInit then InitEntry(e.key, e.body) else LiveEntry(e.key, e.body)
  }

  /** The entries in the order they are collected, before sorting. */
  function Collected(useInit: bool, b: Batch): seq<BucketEntry> {
    seq(|b.init|, i requires 0 <= i < |b.init| => Created(useInit, b.init[i]))
    + seq(|b.live|, i requires 0 <= i < |b.live| => LiveEntry(b.live[i].key, b.live[i].body))
    + seq(|b.dead|, i requires 0 <= i < |b.dead| => DeadEntry(b.dead[i]))
  }

  function Insert(e: BucketEntry, s: seq<BucketEntry>): seq<BucketEntry> {
    if s == [] then [e]
    else if Less(s[0].key, e.key) then [s[0]] + Insert(e, s[1..])
    else [e] + s
  }

  function SortEntries(es: seq<BucketEntry>): seq<BucketEntry> {
    if es == [] then [] else Insert(es[0], SortEntries(es[1..]))
  }

  predicate DistinctKeys(es: seq<BucketEntry>) {
    forall i, j :: 0 <= i < j < |es| ==> es[i].key != es[j].key
  }

  predicate UsesInit(protocol: nat) { protocol >= FIRST_PROTOCOL_SUPPORTING_INITENTRY }

  /** The program asserts that no key occurs twice among the three lists. */
  predicate ValidKeys(b: Batch) {
    DistinctKeys(Collected(true, b))
  }

  /** The batch creates only what the ledger does not hold. */
  predicate CreatesNew(b: Batch, m: Ledger) {
    forall i :: 0 <= i < |b.init| ==> b.init[i].key !in m
  }

  function Fresh(protocol: nat, b: Batch): Bucket {
    Bucket(MetaFor(protocol), SortEntries(Collected(UsesInit(protocol), b)))
  }

  method ConvertToBucketEntry(useInit: bool, b: Batch) returns (bucket: seq<BucketEntry>)
    requires ValidKeys(b)
    ensures bucket == SortEntries(Collected(useInit, b))
  {
    bucket := [];
    for i := 0 to |b.init|
      invariant bucket == Collected(useInit, b)[..i]
    {
      bucket := bucket + [Created(useInit, b.init[i])];
    }
    for i := 0 to |b.live|
      invariant bucket == Collected(useInit, b)[..|b.init| + i]
    {
      bucket := bucket + [LiveEntry(b.live[i].key, b.live[i].body)];
    }
    for i := 0 to |b.dead|
      invariant bucket == Collected(useInit, b)[..|b.init| + |b.live| + i]
    {
      bucket := bucket + [DeadEntry(b.dead[i])];
    }
    assert bucket == Collected(useInit, b);
    bucket := SortEntries(bucket);
  }

  lemma {:induction false} InsertKeeps(e: BucketEntry, s: seq<BucketEntry>, k: LedgerKey)
    requires Sorted(s) && Find(s, e.key) == Absent
    ensures Sorted(Insert(e, s))
    ensures Find(Insert(e, s), k) == if k == e.key then SlotOf(e) else Find(s, k)
    ensures Insert(e, s)[0] == e || (s != [] && Insert(e, s)[0] == s[0])
  {
    if s != [] {
      LessTotal(s[0].key, e.key);
      SortedTail(s);
      var r := Insert(e, s);
      if Less(s[0].key, e.key) {
        InsertKeeps(e, s[1..], k);
        assert r[1..] == Insert(e, s[1..]);
      } else {
        assert r[1..] == s;
      }
    }
  }

  /** Sorting distinct keys gives a bucket with the same slots. */
  lemma {:induction false} SortKeeps(es: seq<BucketEntry>, k: LedgerKey)
    requires DistinctKeys(es)
    ensures Sorted(SortEntries(es)) && Find(SortEntries(es), k) == Find(es, k)
  {
    if es != [] {
      SortKeeps(es[1..], k);
      SortKeeps(es[1..], es[0].key);
      if Find(es[1..], es[0].key) != Absent {
        var i := FindWitness(es[1..], es[0].key);
      }
      InsertKeeps(es[0], SortEntries(es[1..]), k);
    }
  }

  lemma SameKeys(b: Batch)
    requires ValidKeys(b)
    ensures DistinctKeys(Collected(false, b))
  {
    var s, t := Collected(true, b), Collected(false, b);
    assert forall i :: 0 <= i < |t| ==> t[i].key == s[i].key;
  }

  // ----- what the batch does to the ledger -----

  function Put(m: Ledger, es: seq<LedgerEntry>): Ledger
    decreases es
  {
    if es == [] then m else Put(m[es[0].key := es[0].body], es[1..])
  }

  function Erase(m: Ledger, ks: seq<LedgerKey>): Ledger
    decreases ks
  {
    if ks == [] then m else Erase(m - {ks[0]}, ks[1..])
  }

  /** The ledger after a batch. */
  function Closed(m: Ledger, b: Batch): Ledger {
    Erase(Put(Put(m, b.init), b.live), b.dead)
  }

  lemma {:induction false} ApplyDistinct(m: Ledger, es: seq<BucketEntry>, k: LedgerKey)
    requires DistinctKeys(es)
    ensures Lookup(Apply(m, es), k) == Overlay(Lookup(m, k), Find(es, k))
    decreases es
  {
    if es != [] {
      if Find(es[1..], es[0].key) != Absent { var i := FindWitness(es[1..], es[0].key); }
      ApplyDistinct(ApplyEntry(m, es[0]), es[1..], k);
    }
  }

  lemma {:induction false} ApplyConcat(m: Ledger, a: seq<BucketEntry>, b: seq<BucketEntry>)
    ensures Apply(m, a + b) == Apply(Apply(m, a), b)
    decreases a
  {
    if a == [] {
      assert a + b == b;
    } else {
      assert (a + b)[1..] == a[1..] + b;
      ApplyConcat(ApplyEntry(m, a[0]), a[1..], b);
    }
  }

  lemma {:induction false} ApplyPut(m: Ledger, es: seq<LedgerEntry>, t: seq<BucketEntry>)
    requires |t| == |es|
    requires forall i :: 0 <= i < |es| ==> !t[i].DeadEntry? && t[i].key == es[i].key && t[i].body == es[i].body
    ensures Apply(m, t) == Put(m, es)
    decreases es
  {
    if es != [] { ApplyPut(m[es[0].key := es[0].body], es[1..], t[1..]); }
  }

  lemma {:induction false} ApplyErase(m: Ledger, ks: seq<LedgerKey>, t: seq<BucketEntry>)
    requires |t| == |ks|
    requires forall i :: 0 <= i < |ks| ==> t[i] == DeadEntry(ks[i])
    ensures Apply(m, t) == Erase(m, ks)
    decreases ks
  {
    if ks != [] { ApplyErase(m - {ks[0]}, ks[1..], t[1..]); }
  }

  /** Applying the fresh bucket does to the ledger what the batch says. */
  lemma FreshApplies(protocol: nat, b: Batch, m: Ledger)
    requires ValidKeys(b)
    ensures WellFormed(Fresh(protocol, b))
    ensures Apply(m, Fresh(protocol, b).entries) == Closed(m, b)
  {
    var u := UsesInit(protocol);
    var es := Collected(u, b);
    if !u { SameKeys(b); }
    var sorted := Fresh(protocol, b).entries;
    SortKeeps(es, Account(0));
    forall k ensures Lookup(Apply(m, sorted), k) == Lookup(Apply(m, es), k) {
      SortKeeps(es, k);
      ApplyLookup(m, sorted, k);
      ApplyDistinct(m, es, k);
    }
    SameLookupsSameLedger(Apply(m, sorted), Apply(m, es));
    CollectedApplies(u, b, m);
    if !u && HasInit(sorted) {
      var i :| 0 <= i < |sorted| && sorted[i].InitEntry?;
      FindAtIndex(sorted, i);
      SortKeeps(es, sorted[i].key);
      var j := FindWitness(es, sorted[i].key);
    }
  }

  lemma CollectedApplies(useInit: bool, b: Batch, m: Ledger)
    ensures Apply(m, Collected(useInit, b)) == Closed(m, b)
  {
    var x := seq(|b.init|, i requires 0 <= i < |b.init| => Created(useInit, b.init[i]));
    var y := seq(|b.live|, i requires 0 <= i < |b.live| => LiveEntry(b.live[i].key, b.live[i].body));
    var z := seq(|b.dead|, i requires 0 <= i < |b.dead| => DeadEntry(b.dead[i]));
    ApplyConcat(m, x + y, z);
    ApplyConcat(m, x, y);
    ApplyPut(m, b.init, x);
    ApplyPut(Put(m, b.init), b.live, y);
    ApplyErase(Put(Put(m, b.init), b.live), b.dead, z);
  }

  /** The INIT slots of a fresh bucket are the created keys. */
  lemma FreshInits(protocol: nat, b: Batch, k: LedgerKey) returns (i: nat)
    requires ValidKeys(b) && At(Fresh(protocol, b), k).Init?
    ensures UsesInit(protocol) && i < |b.init| && b.init[i].key == k
  {
    var u := UsesInit(protocol);
    if !u { SameKeys(b); }
    SortKeeps(Collected(u, b), k);
    i := FindWitness(Collected(u, b), k);
  }

  /** What the fresh bucket says about each key: the three lists in full, and nothing else. */
  lemma FreshSlots(protocol: nat, b: Batch)
    requires ValidKeys(b)
    ensures Version(Fresh(protocol, b)) == if protocol >= 11 then protocol else 0
    ensures forall i :: 0 <= i < |b.init| ==>
      At(Fresh(protocol, b), b.init[i].key) == if protocol >= 11 then Init(b.init[i].body) else Live(b.init[i].body)
    ensures forall i :: 0 <= i < |b.live| ==> At(Fresh(protocol, b), b.live[i].key) == Live(b.live[i].body)
    ensures forall i :: 0 <= i < |b.dead| ==> At(Fresh(protocol, b), b.dead[i]) == Dead
    ensures forall k :: At(Fresh(protocol, b), k) == Absent <==> !Touches(b, k)
  {
    hide SortEntries, DistinctKeys, ValidKeys, Collected, Find;
    var u := UsesInit(protocol);
    var es := Collected(u, b);
    assert DistinctKeys(es) by { DistinctCollected(u, b); }
    forall i | 0 <= i < |b.init| ensures At(Fresh(protocol, b), b.init[i].key) == SlotOf(Created(u, b.init[i])) {
      SlotAt(es, i);
      CollectedParts(u, b, i);
    }
    forall i | 0 <= i < |b.live| ensures At(Fresh(protocol, b), b.live[i].key) == Live(b.live[i].body) {
      SlotAt(es, |b.init| + i);
      CollectedParts(u, b, |b.init| + i);
    }
    forall i | 0 <= i < |b.dead| ensures At(Fresh(protocol, b), b.dead[i]) == Dead {
      SlotAt(es, |b.init| + |b.live| + i);
      CollectedParts(u, b, |b.init| + |b.live| + i);
    }
    forall k ensures At(Fresh(protocol, b), k) == Absent <==> !Touches(b, k) {
      SortKeeps(es, k);
      if Find(es, k) != Absent {
        var j := FindWitness(es, k);
        CollectedParts(u, b, j);
        CollectedTouches(b, k, j);
      }
    }
  }

  /** The key is among the created, updated or deleted ones. */
  ghost predicate Touches(b: Batch, k: LedgerKey) {
    || (exists i :: 0 <= i < |b.init| && b.init[i].key == k)
    || (exists i :: 0 <= i < |b.live| && b.live[i].key == k)
    || (exists i :: 0 <= i < |b.dead| && b.dead[i] == k)
  }

  lemma DistinctCollected(useInit: bool, b: Batch)
    requires ValidKeys(b)
    ensures DistinctKeys(Collected(useInit, b))
  {
    if !useInit { SameKeys(b); }
  }

  lemma CollectedParts(useInit: bool, b: Batch, j: nat)
    ensures |Collected(useInit, b)| == |b.init| + |b.live| + |b.dead|
    ensures j < |b.init| ==> Collected(useInit, b)[j] == Created(useInit, b.init[j])
    ensures |b.init| <= j < |b.init| + |b.live| ==>
      var e := b.live[j - |b.init|]; Collected(useInit, b)[j] == LiveEntry(e.key, e.body)
    ensures |b.init| + |b.live| <= j < |b.init| + |b.live| + |b.dead| ==>
      Collected(useInit, b)[j] == DeadEntry(b.dead[j - |b.init| - |b.live|])
  {
  }

  lemma CollectedTouches(b: Batch, k: LedgerKey, j: nat)
    requires j < |b.init| + |b.live| + |b.dead|
    requires j < |b.init| ==> b.init[j].key == k
    requires |b.init| <= j < |b.init| + |b.live| ==> b.live[j - |b.init|].key == k
    requires |b.init| + |b.live| <= j ==> b.dead[j - |b.init| - |b.live|] == k
    ensures Touches(b, k)
  {
  }

  /** Sorting keeps the entry at each place findable by its key. */
  lemma SlotAt(es: seq<BucketEntry>, j: nat)
    requires DistinctKeys(es)
    ensures j < |es| ==> Find(SortEntries(es), es[j].key) == SlotOf(es[j])
  {
    hide SortEntries;
    if j < |es| {
      SortKeeps(es, es[j].key);
      FindDistinct(es, j);
    }
  }

  lemma {:induction false} FindDistinct(es: seq<BucketEntry>, j: nat)
    requires DistinctKeys(es) && j < |es|
    ensures Find(es, es[j].key) == SlotOf(es[j])
  {
    if j > 0 { FindDistinct(es[1..], j - 1); }
  }
}
