/** The lifecycle of one key: chains of slots and the table that merges neighbours. */
module Lifecycle {
  import opened Outcomes
  import opened Buckets

  /** The table of results for an old and a new slot of the same key. */
  function Combine(o: Slot, n: Slot): Slot {
    if n.Absent? then o
    else if o.Absent? then n
    else if n.Init? then Live(n.body)
    else if o.Init? then (if n.Live? then Init(n.body) else Absent)
    else n
  }

  /** The two pairs the table calls an error. */
  predicate Clash(o: Slot, n: Slot) {
    n.Init? && (o.Init? || o.Live?)
  }

  // Chains list the slots of one key, newest first.

  function Newest(c: seq<Slot>): Slot {
    if c == [] then Absent
    else if c[0].Absent? then Newest(c[1..])
    else c[0]
  }

  function Oldest(c: seq<Slot>): Slot {
    if c == [] then Absent
    else if Oldest(c[1..]).Absent? then c[0]
    else Oldest(c[1..])
  }

  /** Every INIT is preceded in time by a DEAD or by nothing. */
  predicate Legal(c: seq<Slot>) {
    c == [] || (Legal(c[1..]) && (c[0].Init? ==> Newest(c[1..]).Absent? || Newest(c[1..]).Dead?))
  }

  /** What a reader of the whole chain sees. */
  function View(c: seq<Slot>): Option<Body> {
    Overlay(None, Newest(c))
  }

  /** The chain says something, and its oldest word is not a creation: no merging of
      neighbours can make it fall silent. */
  predicate Steady(c: seq<Slot>) {
    Oldest(c).Live? || Oldest(c).Dead?
  }

  lemma {:induction false} Joined(a: seq<Slot>, b: seq<Slot>)
    ensures Newest(a + b) == if Newest(a).Absent? then Newest(b) else Newest(a)
    ensures Oldest(a + b) == if Oldest(b).Absent? then Oldest(a) else Oldest(b)
    ensures Newest(a).Absent? <==> Oldest(a).Absent?
    ensures Legal(a + b) <==>
      Legal(a) && Legal(b) && (Oldest(a).Init? ==> Newest(b).Absent? || Newest(b).Dead?)
  {
    if a == [] {
      assert a + b == b;
    } else {
      assert (a + b)[1..] == a[1..] + b;
      Joined(a[1..], b);
    }
  }

  lemma OneSlot(x: Slot)
    ensures Newest([x]) == Oldest([x]) == x && Legal([x])
  {
    var c := [x];
    assert c[1..] == [] && Legal(c[1..]);
  }

  /** Merging two neighbours of a legal chain meets no error, keeps the chain legal and
      keeps what the reader sees. So does leaving the result out, provided the newer part of
      the chain is steady, or the result is a tombstone with nothing below it. */
  lemma PairMerged(p: seq<Slot>, x: Slot, y: Slot, q: seq<Slot>, v: Slot)
    requires Legal(p + [x, y] + q)
    requires v == Combine(y, x)
          || (v.Absent? && (Steady(p) || (Combine(y, x).Dead? && Newest(q).Absent?)))
    ensures !Clash(y, x)
    ensures Legal(p + [v] + q)
    ensures View(p + [v] + q) == View(p + [x, y] + q)
  {
    hide Newest, Oldest, Legal;
    Joined(p + [x, y], q);
    Joined(p, [x, y]);
    Joined([x], [y]);
    assert [x] + [y] == [x, y];
    Joined(p + [v], q);
    Joined(p, [v]);
    OneSlot(x);
    OneSlot(y);
    OneSlot(v);
  }

  /** Leaving the result out, exactly: the chain stays legal unless it lets a creation follow what
      is not dead, and where newer slots speak a reader sees no difference. */
  lemma PairDroppedIff(p: seq<Slot>, x: Slot, y: Slot, q: seq<Slot>)
    requires Legal(p + [x, y] + q)
    ensures Legal(p + [Absent] + q) <==> !(Oldest(p).Init? && (Newest(q).Init? || Newest(q).Live?))
    ensures View(p + [Absent] + q) == View(p + [x, y] + q) <==>
      !Newest(p).Absent? || Overlay(None, Newest(q)) == Overlay(None, Newest([Combine(y, x)] + q))
  {
    hide Newest, Oldest, Legal;
    Joined(p + [x, y], q);
    Joined(p, [x, y]);
    Joined([x], [y]);
    assert [x] + [y] == [x, y];
    Joined(p + [Absent], q);
    Joined(p, [Absent]);
    Joined([Combine(y, x)], q);
    OneSlot(x);
    OneSlot(y);
    OneSlot(Absent);
    OneSlot(Combine(y, x));
  }

  /** A steady part of the chain stays steady when neighbours in it merge. */
  lemma PairMergedSteady(p: seq<Slot>, x: Slot, y: Slot, q: seq<Slot>, v: Slot)
    requires Legal(p + [x, y] + q) && Steady(p + [x, y] + q)
    requires v == Combine(y, x) || (v.Absent? && Steady(p))
    ensures Steady(p + [v] + q)
  {
    hide Newest, Oldest, Legal;
    Joined(p + [x, y], q);
    Joined(p, [x, y]);
    Joined([x], [y]);
    assert [x] + [y] == [x, y];
    Joined(p + [v], q);
    Joined(p, [v]);
    OneSlot(x);
    OneSlot(y);
    OneSlot(v);
  }

  /** Merging oldest-first succeeds exactly on legal chains. */
  lemma LeftGroupingIff(a: Slot, b: Slot, c: Slot)
    ensures !Clash(a, b) && !Clash(Combine(a, b), c) <==> Legal([c, b, a])
  {
    Joined([c], [b, a]);
    Joined([b], [a]);
    assert [c] + [b, a] == [c, b, a] && [b] + [a] == [b, a];
  }

  /** On a legal chain the other grouping succeeds too, and gives the same result unless an
      entry was created, deleted, and then updated or deleted while it did not exist. */
  lemma CombineAssociativeIff(a: Slot, b: Slot, c: Slot)
    requires Legal([c, b, a])
    ensures !Clash(b, c) && !Clash(a, Combine(b, c))
    ensures Combine(Combine(a, b), c) == Combine(a, Combine(b, c)) <==> !(a.Init? && b.Dead? && (c.Live? || c.Dead?))
  {
    LeftGroupingIff(a, b, c);
  }
}
