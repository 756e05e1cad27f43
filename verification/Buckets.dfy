/** Buckets: key-sorted runs of entries, and what a reader sees in them. */
module Buckets {
  import opened Outcomes
  import opened LedgerKeys

  const FIRST_PROTOCOL_SUPPORTING_INITENTRY: nat := 11
  const FIRST_PROTOCOL_SHADOWS_REMOVED: nat := 12

  /** The contents of a ledger entry; buckets never look inside. */
  type Body = seq<nat>

  datatype BucketEntry =
    | InitEntry(key: LedgerKey, body: Body)
    | LiveEntry(key: LedgerKey, body: Body)
    | DeadEntry(key: LedgerKey)

  /** The meta entry of a bucket is kept apart as `meta`, the ledger version it records. */
  datatype Bucket = Bucket(meta: Option<nat>, entries: seq<BucketEntry>)

  const EmptyBucket := Bucket(None, [])

  function Version(b: Bucket): nat {
    if b.meta.Some? then b.meta.value else 0
  }

  // ----- one key at a time -----

  /** What a bucket says about one key. */
  datatype Slot = Absent | Init(body: Body) | Live(body: Body) | Dead

  function SlotOf(e: BucketEntry): Slot {
    match e
    case InitEntry(_, body) => Init(body)
    case LiveEntry(_, body) => Live(body)
    case DeadEntry(_) => Dead
  }

  function EntryOf(k: LedgerKey, s: Slot): BucketEntry
    requires !s.Absent?
  {
    match s
    case Init(body) => InitEntry(k, body)
    case Live(body) => LiveEntry(k, body)
    case Dead => DeadEntry(k)
  }

  function Find(es: seq<BucketEntry>, k: LedgerKey): Slot {
    if es == [] then Absent
    else if es[0].key == k then SlotOf(es[0])
    else Find(es[1..], k)
  }

  function At(b: Bucket, k: LedgerKey): Slot {
    Find(b.entries, k)
  }

  predicate Sorted(es: seq<BucketEntry>) {
    |es| > 1 ==> Less(es[0].key, es[1].key) && Sorted(es[1..])
  }

  predicate HasInit(es: seq<BucketEntry>) {
    exists i :: 0 <= i < |es| && es[i].InitEntry?
  }

  /** Strictly key-sorted; a meta entry exactly from protocol 11 on; INIT entries only with one. */
  predicate WellFormed(b: Bucket) {
    && Sorted(b.entries)
    && (b.meta.Some? ==> b.meta.value >= FIRST_PROTOCOL_SUPPORTING_INITENTRY)
    && (b.meta.None? ==> !HasInit(b.entries))
  }

  /** All keys of `es` lie above `k`. */
  predicate Above(k: LedgerKey, es: seq<BucketEntry>) {
    es == [] || Less(k, es[0].key)
  }

  lemma {:induction false} AboveAbsent(k: LedgerKey, es: seq<BucketEntry>)
    requires Sorted(es) && Above(k, es)
    ensures Find(es, k) == Absent
  {
    if es != [] {
      LessTotal(k, es[0].key);
      if |es| > 1 { LessTransitive(k, es[0].key, es[1].key); }
      AboveAbsent(k, es[1..]);
    }
  }

  lemma {:induction false} FoundAbove(k: LedgerKey, es: seq<BucketEntry>, x: LedgerKey)
    requires Sorted(es) && Above(k, es) && Find(es, x) != Absent
    ensures Less(k, x)
  {
    if es[0].key != x {
      LessTransitive(k, es[0].key, es[1].key);
      FoundAbove(k, es[1..], x);
    }
  }

  lemma SortedTail(es: seq<BucketEntry>)
    requires Sorted(es) && es != []
    ensures Sorted(es[1..]) && Above(es[0].key, es[1..])
    ensures Find(es[1..], es[0].key) == Absent
  {
    AboveAbsent(es[0].key, es[1..]);
  }

  /** In a sorted bucket every entry is the one its key finds: no key occurs twice. */
  lemma {:induction false} FindAtIndex(es: seq<BucketEntry>, i: nat)
    requires Sorted(es) && i < |es|
    ensures Find(es, es[i].key) == SlotOf(es[i])
  {
    hide Less, Sorted;
    if i > 0 {
      SortedTail(es);
      FindAtIndex(es[1..], i - 1);
    }
  }

  lemma {:induction false} FindWitness(es: seq<BucketEntry>, k: LedgerKey) returns (i: nat)
    requires Find(es, k) != Absent
    ensures i < |es| && es[i].key == k && Find(es, k) == SlotOf(es[i])
  {
    if es[0].key == k {
      i := 0;
    } else {
      i := FindWitness(es[1..], k);
      i := i + 1;
    }
  }

  /** A sorted bucket is determined by what it says about each key. */
  lemma {:induction false} SameSlotsSameEntries(a: seq<BucketEntry>, b: seq<BucketEntry>)
    requires Sorted(a) && Sorted(b)
    requires forall k :: Find(a, k) == Find(b, k)
    ensures a == b
  {
    var head := if a != [] then a[0].key else if b != [] then b[0].key else Account(0);
    assert Find(a, head) == Find(b, head);
    if a != [] && b != [] {
      var ka, kb := a[0].key, b[0].key;
      assert Find(a, ka) == Find(b, ka) && Find(a, kb) == Find(b, kb);
      SortedTail(a);
      SortedTail(b);
      if ka != kb {
        FoundAbove(ka, a[1..], kb);
        FoundAbove(kb, b[1..], ka);
        LessTotal(ka, kb);
      }
      forall k ensures Find(a[1..], k) == Find(b[1..], k) {
        assert Find(a, k) == Find(b, k);
      }
      SameSlotsSameEntries(a[1..], b[1..]);
      assert a == [a[0]] + a[1..] && b == [b[0]] + b[1..];
    }
  }

  lemma NoInitSlot(b: Bucket, k: LedgerKey)
    requires WellFormed(b) && b.meta.None?
    ensures !At(b, k).Init?
  {
    if At(b, k) != Absent { var i := FindWitness(b.entries, k); }
  }

  // ----- applying a bucket to the ledger -----

  type Ledger = map<LedgerKey, Body>

  function ApplyEntry(m: Ledger, e: BucketEntry): Ledger {
    match e
    case InitEntry(k, body) => m[k := body]
    case LiveEntry(k, body) => m[k := body]
    case DeadEntry(k) => m - {k}
  }

  function Apply(m: Ledger, es: seq<BucketEntry>): Ledger
    decreases es
  {
    if es == [] then m else Apply(ApplyEntry(m, es[0]), es[1..])
  }

  function Lookup(m: Ledger, k: LedgerKey): Option<Body> {
    if k in m then Some(m[k]) else None
  }

  /** What a reader sees of a key whose newest slot is `s`, over an older view. */
  function Overlay(older: Option<Body>, s: Slot): Option<Body> {
    match s
    case Absent => older
    case Init(body) => Some(body)
    case Live(body) => Some(body)
    case Dead => None
  }

  /** Applying a sorted bucket overwrites each key with the bucket's slot for it. */
  lemma {:induction false} ApplyLookup(m: Ledger, es: seq<BucketEntry>, k: LedgerKey)
    requires Sorted(es)
    ensures Lookup(Apply(m, es), k) == Overlay(Lookup(m, k), Find(es, k))
    decreases es
  {
    if es != [] {
      SortedTail(es);
      ApplyLookup(ApplyEntry(m, es[0]), es[1..], k);
    }
  }

  lemma SameLookupsSameLedger(a: Ledger, b: Ledger)
    requires forall k :: Lookup(a, k) == Lookup(b, k)
    ensures a == b
  {
    forall k ensures (k in a <==> k in b) && (k in a ==> a[k] == b[k]) {
      assert Lookup(a, k) == Lookup(b, k);
    }
    assert a.Keys == b.Keys;
  }
}
