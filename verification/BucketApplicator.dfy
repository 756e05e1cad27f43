/** Applying a bucket to the ledger in bounded batches. */
module BucketApplication {
  import opened Outcomes
  import opened Buckets
  import opened BucketFresh

  class BucketApplicator {
    const bucket: Bucket
    const maxVersion: nat
    var ledger: Ledger       // the database the bucket is applied to
    var pos: nat             // the entry the iterator stands on
    var count: nat           // entries applied so far, counting repetitions
    ghost const base: Ledger // the database before
    ghost var applied: nat   // the entries applied at least once are the first `applied`

    /** The entry the iterator stands on may have been applied already. */
    ghost predicate Valid()
      reads this
    {
      && WellFormed(bucket) && Version(bucket) <= maxVersion
      && pos <= applied <= |bucket.entries| && applied <= pos + 1
      && ledger == Apply(base, bucket.entries[..applied])
    }

    constructor (maxVersion: nat, bucket: Bucket, ledger: Ledger)
      requires WellFormed(bucket) && Version(bucket) <= maxVersion
      ensures Valid() && this.bucket == bucket && this.maxVersion == maxVersion
      ensures pos == 0 && count == 0 && applied == 0 && base == ledger && this.ledger == ledger
    {
      this.bucket, this.maxVersion, this.ledger := bucket, maxVersion, ledger;
      pos, count, applied, base := 0, 0, 0, ledger;
    }

    predicate HasMore()
      reads this
    {
      pos < |bucket.entries|
    }

    /** Apply one batch. When the batch fills up, the iterator stays on the last entry of the
        batch, which the next batch therefore applies again. */
    method Advance(batchSize: nat) returns (n: nat)
      requires Valid()
      modifies this
      ensures Valid()
      ensures var rest := |bucket.entries| - old(pos);
        && n == (if rest > batchSize then batchSize + 1 else rest)
        && pos == old(pos) + (if rest > batchSize then batchSize else rest)
      ensures count == old(count) + n
      ensures !HasMore() ==> ledger == Apply(base, bucket.entries)
    {
      n := 0;
      var start := pos;
      var full := false;
      while pos < |bucket.entries| && !full
        invariant Valid()
        invariant count == old(count)
        invariant pos <= |bucket.entries| && start <= pos
        invariant !full ==> n == pos - start && n <= batchSize
        invariant full ==> n == batchSize + 1 && pos == start + batchSize && pos < |bucket.entries|
        decreases |bucket.entries| - pos, !full
      {
        var e := bucket.entries[pos];
        assert e.InitEntry? ==> maxVersion >= FIRST_PROTOCOL_SUPPORTING_INITENTRY;
        ApplyAgain(base, bucket.entries, pos, applied);
        ledger := ApplyEntry(ledger, e);
        applied := pos + 1;
        n := n + 1;
        if n > batchSize {
          full := true;
        } else {
          pos := pos + 1;
        }
      }
      count := count + n;
      if pos == |bucket.entries| { assert bucket.entries[..applied] == bucket.entries; }
    }
  }

  lemma ApplyLast(m: Ledger, es: seq<BucketEntry>, i: nat)
    requires i < |es|
    ensures Apply(m, es[..i + 1]) == ApplyEntry(Apply(m, es[..i]), es[i])
  {
    assert es[..i + 1] == es[..i] + [es[i]];
    ApplyConcat(m, es[..i], [es[i]]);
    assert [es[i]][1..] == [];
  }

  /** Applying the entry at hand gives the same whether or not it was applied before. */
  lemma ApplyAgain(m: Ledger, es: seq<BucketEntry>, pos: nat, applied: nat)
    requires pos < |es| && pos <= applied <= pos + 1
    ensures ApplyEntry(Apply(m, es[..applied]), es[pos]) == Apply(m, es[..pos + 1])
  {
    ApplyLast(m, es, pos);
  }

  /** Apply a bucket batch by batch until nothing is left: the same as one pass. */
  method ApplyBucket(maxVersion: nat, bucket: Bucket, ledger: Ledger, batchSize: nat) returns (r: Outcome<Ledger>)
    requires WellFormed(bucket) && batchSize >= 1
    ensures Version(bucket) > maxVersion ==> r == Error(VersionTooHigh)
    ensures Version(bucket) <= maxVersion ==> r == Ok(Apply(ledger, bucket.entries))
  {
    if Version(bucket) > maxVersion { return Error(VersionTooHigh); }
    var applicator := new BucketApplicator(maxVersion, bucket, ledger);
    assert bucket.entries[..0] == [];
    while applicator.HasMore()
      invariant applicator.Valid() && fresh(applicator)
      invariant applicator.bucket == bucket && applicator.base == ledger
      invariant !applicator.HasMore() ==> applicator.ledger == Apply(ledger, bucket.entries)
      decreases |bucket.entries| - applicator.pos
    {
      var n := applicator.Advance(batchSize);
    }
    r := Ok(applicator.ledger);
  }
}
