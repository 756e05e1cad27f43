/** Exchanging two adjacent blocks of an argument vector in place, by following the cycles of
    the exchange. */
module ArgumentPermutation {

  // ----- the greatest common divisor -----

  ghost predicate Divides(d: int, x: int) {
    exists k :: x == d * k
  }

  /** `g` divides both, and is a combination of both: so it is the greatest divisor. */
  ghost predicate IsGcd(g: int, a: int, b: int) {
    g > 0 && Divides(g, a) && Divides(g, b) && exists s, t :: Combination(g, a, b, s, t)
  }

  ghost predicate Combination(g: int, a: int, b: int, s: int, t: int) {
    g == s * a + t * b
  }

  lemma DividesSum(d: int, x: int, y: int, m: int)
    requires Divides(d, x) && Divides(d, y)
    ensures Divides(d, x + m * y)
  {
    var k :| x == d * k;
    var l :| y == d * l;
    assert x + m * y == d * (k + m * l);
  }

  /** Every common divisor divides the greatest one. */
  lemma GcdIsGreatest(g: int, a: int, b: int, d: int)
    requires IsGcd(g, a, b) && Divides(d, a) && Divides(d, b)
    ensures Divides(d, g)
  {
    var s, t :| Combination(g, a, b, s, t);
    assert Divides(d, 0) by { assert 0 == d * 0; }
    DividesSum(d, 0, a, s);
    DividesSum(d, 0 + s * a, b, t);
  }

  /** One step of Euclid's algorithm. */
  lemma GcdStep(g: int, a: int, b: int, q: int)
    requires IsGcd(g, b, a - q * b)
    ensures IsGcd(g, a, b)
  {
    DividesSum(g, a - q * b, b, q);
    var s, t :| Combination(g, b, a - q * b, s, t);
    assert t * (a - q * b) == t * a - (t * q) * b;
    assert s * b - (t * q) * b == (s - t * q) * b;
    assert Combination(g, a, b, t, s - t * q);
  }

  method Gcd(a0: nat, b0: nat) returns (g: nat)
    requires b0 > 0
    ensures IsGcd(g, a0, b0)
  {
    var a, b := a0, b0;
    var c := a % b;
    while c != 0
      invariant b > 0 && c == a % b
      invariant forall g :: IsGcd(g, a, b) ==> IsGcd(g, a0, b0)
      decreases b
    {
      forall g | IsGcd(g, b, c) ensures IsGcd(g, a, b) {
        assert c == a - (a / b) * b;
        GcdStep(g, a, b, a / b);
      }
      a, b := b, c;
      c := a % b;
    }
    assert a == b * (a / b) && b == b * 1 && Combination(b, a, b, 0, 1);
    g := b;
  }

  // ----- the cycles, scaled down by the gcd -----

  /** Where the exchange of blocks of lengths p and q sends a position. */
  function Target(x: nat, p: nat, q: nat): (y: nat)
    requires x < p + q
    ensures y < p + q
  {
    if x >= p then x - p else x + q
  }

  /** The positions met by following the exchange from position p. */
  function Orbit(t: nat, p: nat, q: nat): (y: nat)
    requires q > 0
    ensures y < p + q
  {
    if t == 0 then p else Target(Orbit(t - 1, p, q), p, q)
  }

  lemma MulNonneg(a: int, b: int)
    requires a >= 0 && b >= 0
    ensures a * b >= 0
  {
  }

  lemma NonnegFactor(g: int, k: int)
    requires g > 0 && g * k >= 0
    ensures k >= 0
  {
    assert g * k == 0 - g - g * (-k - 1);
    if k < 0 { MulNonneg(g, -k - 1); }
  }

  lemma SmallMultiple(d: int, n: int)
    requires n > 0 && Divides(n, d) && -n < d < n
    ensures d == 0
  {
    var m :| d == n * m;
    assert n * m == n + n * (m - 1) == -n - n * (-m - 1);
    if m >= 1 { MulNonneg(n, m - 1); }
    if m <= -1 { MulNonneg(n, -m - 1); }
  }

  lemma DividesStep(n: int, x: int, y: int)
    requires Divides(n, x) && (y == x || y == x + n || y == x - n)
    ensures Divides(n, y)
  {
    var k :| x == n * k;
    assert n * (k + 1) == n * k + n && n * (k - 1) == n * k - n;
  }

  lemma DividesDifference(n: int, x: int, y: int)
    requires Divides(n, x) && Divides(n, y)
    ensures Divides(n, x - y)
  {
    DividesSum(n, x, y, -1);
  }

  /** After t steps of length q, counted around the circle of both blocks. */
  lemma {:induction false} OrbitIs(t: nat, p: nat, q: nat)
    requires q > 0
    ensures Divides(p + q, Orbit(t, p, q) - p - t * q)
  {
    if t == 0 {
      assert 0 == (p + q) * 0;
    } else {
      OrbitIs(t - 1, p, q);
      assert t * q == (t - 1) * q + q;
      DividesStep(p + q, Orbit(t - 1, p, q) - p - (t - 1) * q, Orbit(t, p, q) - p - t * q);
    }
  }

  /** s and u witness that the block lengths, scaled down, have no common divisor. */
  ghost predicate Coprime(n: int, q: int, s: int, u: int) {
    s * n + u * q == 1
  }

  lemma CoprimeCancels(n: int, q: int, s: int, u: int, d: int)
    requires Coprime(n, q, s, u) && Divides(n, d * q)
    ensures Divides(n, d)
  {
    var k :| d * q == n * k;
    calc {
      d;
      d * (s * n + u * q);
      d * (s * n) + d * (u * q);
      { assert d * (s * n) == n * (d * s); }
      { assert d * (u * q) == u * (d * q); }
      n * (d * s) + u * (n * k);
      { assert u * (n * k) == n * (u * k); }
      n * (d * s) + n * (u * k);
      n * (d * s + u * k);
    }
  }

  /** Positions met at two times coincide exactly a whole number of turns apart. */
  lemma OrbitReturns(t: nat, t': nat, p: nat, q: nat, s: int, u: int)
    requires q > 0 && Coprime(p + q, q, s, u) && t < t' <= p + q
    ensures Orbit(t, p, q) == Orbit(t', p, q) <==> t == 0 && t' == p + q
  {
    var n := p + q;
    OrbitIs(t, p, q);
    OrbitIs(t', p, q);
    DividesDifference(n, Orbit(t, p, q) - p - t * q, Orbit(t', p, q) - p - t' * q);
    assert (t' - t) * q == t' * q - t * q;
    if Orbit(t, p, q) == Orbit(t', p, q) {
      CoprimeCancels(n, q, s, u, t' - t);
      if t' - t < n { SmallMultiple(t' - t, n); }
    }
    if t == 0 && t' == n {
      assert Divides(n, n * q);
      DividesSum(n, Orbit(t, p, q) - Orbit(t', p, q) + n * q, n * q, -1);
      SmallMultiple(Orbit(t, p, q) - Orbit(t', p, q), n);
    }
  }

  /** Every position lies on the cycle. */
  lemma OrbitCovers(y: nat, p: nat, q: nat, s: int, u: int) returns (t: nat)
    requires q > 0 && y < p + q && Coprime(p + q, q, s, u)
    ensures t < p + q && Orbit(t, p, q) == y
  {
    var n, e := p + q, y - p;
    t := (e * u) % n;
    OrbitIs(t, p, q);
    RemainderSteps(e, u, n, q, s);
    DividesSum(n, Orbit(t, p, q) - p - t * q, t * q - e, 1);
    SmallMultiple(Orbit(t, p, q) - y, n);
  }

  lemma RemainderSteps(e: int, u: int, n: int, q: int, s: int)
    requires n > 0 && Coprime(n, q, s, u)
    ensures Divides(n, ((e * u) % n) * q - e)
  {
    var k, t := (e * u) / n, (e * u) % n;
    assert t == e * u - n * k;
    calc {
      t * q - e;
      (e * u - n * k) * q - e;
      (e * u) * q - (n * k) * q - e;
      { assert (e * u) * q == e * (u * q); }
      e * (1 - s * n) - (n * k) * q - e;
      { assert e * (1 - s * n) == e - e * (s * n); }
      - (e * (s * n)) - (n * k) * q;
      { assert e * (s * n) == n * (e * s); assert (n * k) * q == n * (k * q); }
      - (n * (e * s)) - n * (k * q);
      n * (- (e * s) - k * q);
    }
  }

  // ----- places in the vector -----

  /** The position with scaled-down coordinate y on the cycle with offset i. */
  function Place(start: nat, g: nat, n: nat, y: nat, i: nat): (x: nat)
    requires y < n && i < g
    ensures start <= x < start + g * n
  {
    MulNonneg(g, y);
    MulNonneg(g, n - 1 - y);
    assert g * n == g * y + g + g * (n - 1 - y);
    start + g * y + i
  }

  lemma PlaceInjective(start: nat, g: nat, n: nat, y: nat, i: nat, y': nat, i': nat)
    requires y < n && i < g && y' < n && i' < g
    ensures Place(start, g, n, y, i) == Place(start, g, n, y', i') ==> y == y' && i == i'
  {
    if Place(start, g, n, y, i) == Place(start, g, n, y', i') {
      assert i' - i == g * (y - y');
      SmallMultiple(i' - i, g);
      assert g * (y - y') == g + g * (y - y' - 1) == 0 - g - g * (y' - y - 1);
      if y > y' { MulNonneg(g, y - y' - 1); }
      if y < y' { MulNonneg(g, y' - y - 1); }
    }
  }

  lemma PlaceCovers(start: nat, g: nat, n: nat, x: nat) returns (y: nat, i: nat)
    requires g > 0 && start <= x < start + g * n
    ensures y < n && i < g && Place(start, g, n, y, i) == x
  {
    y, i := (x - start) / g, (x - start) % g;
    assert x - start == g * y + i;
    assert g * y == g * n + g * (y - n);
    if y >= n { MulNonneg(g, y - n); }
  }

  /** The exchange moves a place by whole multiples of the gcd, so it keeps the offset. */
  lemma PlaceTarget(start: nat, g: nat, p: nat, q: nat, y: nat, i: nat)
    requires y < p + q && i < g
    ensures Place(start, g, p + q, y, i) >= start + g * p <==> y >= p
    ensures Place(start, g, p + q, Target(y, p, q), i)
            == if y >= p then Place(start, g, p + q, y, i) - g * p else Place(start, g, p + q, y, i) + g * q
  {
    if y >= p {
      MulNonneg(g, y - p);
      assert g * (y - p) == g * y - g * p;
    } else {
      MulNonneg(g, p - 1 - y);
      assert g * p == g * y + g + g * (p - 1 - y);
      assert g * (y + q) == g * y + g * q;
    }
  }

  /** On offset i, every element has moved to its target. */
  ghost predicate Moved<T>(now: seq<T>, was: seq<T>, start: nat, g: nat, p: nat, q: nat, i: nat)
    requires |now| == |was| && start + g * (p + q) <= |now| && i < g
  {
    forall y :: 0 <= y < p + q ==> now[Place(start, g, p + q, Target(y, p, q), i)] == was[Place(start, g, p + q, y, i)]
  }

  /** On offset i, nothing has moved. */
  ghost predicate Kept<T>(now: seq<T>, was: seq<T>, start: nat, g: nat, n: nat, i: nat)
    requires |now| == |was| && start + g * n <= |now| && i < g
  {
    forall y :: 0 <= y < n ==> now[Place(start, g, n, y, i)] == was[Place(start, g, n, y, i)]
  }

  function Spot(start: nat, g: nat, p: nat, q: nat, i: nat, k: nat): (x: nat)
    requires q > 0 && i < g
    ensures start <= x < start + g * (p + q)
  {
    Place(start, g, p + q, Orbit(k, p, q), i)
  }

  /** m elements have been carried along the cycle, and its first spot holds the next one to carry. */
  ghost predicate Carried<T>(now: seq<T>, was: seq<T>, start: nat, g: nat, p: nat, q: nat, i: nat, m: nat)
    requires |now| == |was| && start + g * (p + q) <= |now| && i < g && q > 0
  {
    && now[Spot(start, g, p, q, i, 0)] == was[Spot(start, g, p, q, i, m)]
    && (forall k :: 0 < k <= m ==> now[Spot(start, g, p, q, i, k)] == was[Spot(start, g, p, q, i, k - 1)])
    && (forall k :: m < k < p + q ==> now[Spot(start, g, p, q, i, k)] == was[Spot(start, g, p, q, i, k)])
  }

  lemma SpotsDiffer(start: nat, g: nat, p: nat, q: nat, i: nat, s: int, u: int, k: nat, k': nat)
    requires i < g && q > 0 && Coprime(p + q, q, s, u) && k < k' <= p + q && !(k == 0 && k' == p + q)
    ensures Spot(start, g, p, q, i, k) != Spot(start, g, p, q, i, k')
  {
    hide Coprime, Orbit, Place;
    OrbitReturns(k, k', p, q, s, u);
    PlaceInjective(start, g, p + q, Orbit(k, p, q), i, Orbit(k', p, q), i);
  }

  lemma CarryOn<T>(now: seq<T>, was: seq<T>, start: nat, g: nat, p: nat, q: nat, i: nat, s: int, u: int, m: nat)
    requires |now| == |was| && start + g * (p + q) <= |now| && i < g && q > 0
    requires Coprime(p + q, q, s, u) && m + 1 < p + q && Carried(now, was, start, g, p, q, i, m)
    ensures
      var x, y := Spot(start, g, p, q, i, 0), Spot(start, g, p, q, i, m + 1);
      Carried(now[y := now[x]][x := now[y]], was, start, g, p, q, i, m + 1)
  {
    hide Coprime, Spot;
    forall k | 0 < k < p + q ensures Spot(start, g, p, q, i, k) != Spot(start, g, p, q, i, 0) {
      SpotsDiffer(start, g, p, q, i, s, u, 0, k);
    }
    forall k | 0 <= k < p + q && k != m + 1
      ensures Spot(start, g, p, q, i, k) != Spot(start, g, p, q, i, m + 1)
    {
      if k < m + 1 { SpotsDiffer(start, g, p, q, i, s, u, k, m + 1); }
      else { SpotsDiffer(start, g, p, q, i, s, u, m + 1, k); }
    }
  }

  lemma CarriedMoved<T>(now: seq<T>, was: seq<T>, start: nat, g: nat, p: nat, q: nat, i: nat, s: int, u: int)
    requires |now| == |was| && start + g * (p + q) <= |now| && i < g && q > 0
    requires Coprime(p + q, q, s, u) && Carried(now, was, start, g, p, q, i, p + q - 1)
    ensures Moved(now, was, start, g, p, q, i)
  {
    hide Coprime, Place;
    forall y | 0 <= y < p + q
      ensures now[Place(start, g, p + q, Target(y, p, q), i)] == was[Place(start, g, p + q, y, i)]
    {
      var t := OrbitCovers(y, p, q, s, u);
      assert Orbit(t + 1, p, q) == Target(y, p, q);
      if t + 1 == p + q {
        OrbitReturns(0, p + q, p, q, s, u);
        assert Spot(start, g, p, q, i, 0) == Spot(start, g, p, q, i, p + q);
      } else {
        assert now[Spot(start, g, p, q, i, t + 1)] == was[Spot(start, g, p, q, i, t)];
      }
    }
  }

  ghost predicate OnOffset(x: nat, start: nat, g: nat, n: nat, i: nat)
    requires i < g
  {
    exists y :: 0 <= y < n && Place(start, g, n, y, i) == x
  }

  /** All changes are on offset i. */
  ghost predicate ChangedOnly<T>(now: seq<T>, was: seq<T>, start: nat, g: nat, n: nat, i: nat)
    requires |now| == |was| && i < g
  {
    forall x :: 0 <= x < |now| && !OnOffset(x, start, g, n, i) ==> now[x] == was[x]
  }

  lemma OffsetsApart<T>(now: seq<T>, was: seq<T>, start: nat, g: nat, n: nat, i: nat, i': nat)
    requires |now| == |was| && start + g * n <= |now| && i < g && i' < g && i != i'
    requires ChangedOnly(now, was, start, g, n, i)
    ensures Kept(now, was, start, g, n, i')
  {
    hide Place;
    forall y' | 0 <= y' < n ensures !OnOffset(Place(start, g, n, y', i'), start, g, n, i) {
      forall y | 0 <= y < n ensures Place(start, g, n, y, i) != Place(start, g, n, y', i') {
        PlaceInjective(start, g, n, y', i', y, i);
      }
    }
  }

  lemma FirstSpot(start: nat, g: nat, p: nat, q: nat, i: nat)
    requires q > 0 && i < g
    ensures Spot(start, g, p, q, i, 0) == start + g * p + i
  {
  }

  lemma NextSpot(start: nat, g: nat, p: nat, q: nat, i: nat, k: nat)
    requires q > 0 && i < g
    ensures var x := Spot(start, g, p, q, i, k);
      && Spot(start, g, p, q, i, k + 1) == (if x >= start + g * p then x - g * p else x + g * q)
      && OnOffset(x, start, g, p + q, i)
  {
    hide Place;
    PlaceTarget(start, g, p, q, Orbit(k, p, q), i);
    assert Orbit(k + 1, p, q) == Target(Orbit(k, p, q), p, q);
  }

  lemma SpotReturns(start: nat, g: nat, p: nat, q: nat, i: nat, s: int, u: int)
    requires q > 0 && i < g && Coprime(p + q, q, s, u)
    ensures Spot(start, g, p, q, i, p + q) == Spot(start, g, p, q, i, 0)
  {
    OrbitReturns(0, p + q, p, q, s, u);
  }

  /** Following one cycle moves each of its elements to its target, and no other element. */
  method PermuteCycle<T>(a: array<T>, start: nat, mid: nat, end: nat, cycleLen: nat, g: nat, i: nat,
                         ghost p: nat, ghost q: nat, ghost s: int, ghost u: int)
    requires start <= mid < end <= a.Length && i < g && cycleLen == p + q
    requires mid == start + g * p && end == start + g * (p + q) && end - mid == g * q
    requires q > 0 && Coprime(p + q, q, s, u)
    modifies a
    ensures Moved(a[..], old(a[..]), start, g, p, q, i)
    ensures ChangedOnly(a[..], old(a[..]), start, g, p + q, i)
  {
    hide Coprime, Spot, Moved;
    ghost var was := a[..];
    var cstart := mid + i;
    FirstSpot(start, g, p, q, i);
    var pos := cstart;
    for j := 0 to cycleLen
      invariant pos == Spot(start, g, p, q, i, j)
      invariant Carried(a[..], was, start, g, p, q, i, if j < cycleLen then j else cycleLen - 1)
      invariant ChangedOnly(a[..], was, start, g, p + q, i)
    {
      NextSpot(start, g, p, q, i, j);
      NextSpot(start, g, p, q, i, j + 1);
      NextSpot(start, g, p, q, i, 0);
      pos := if pos >= mid then pos - (mid - start) else pos + (end - mid);
      ghost var now := a[..];
      if j + 1 < cycleLen {
        CarryOn(now, was, start, g, p, q, i, s, u, j);
      } else {
        SpotReturns(start, g, p, q, i, s, u);
      }
      var swap := a[pos];
      a[pos] := a[cstart];
      a[cstart] := swap;
      assert a[..] == now[pos := now[cstart]][cstart := now[pos]];
    }
    CarriedMoved(a[..], was, start, g, p, q, i, s, u);
  }

  /** Divided by their gcd, the block lengths have no common divisor. */
  lemma ScaledDown(g: nat, a: nat, b: nat) returns (p: nat, q: nat, s: int, u: int)
    requires b > 0 && IsGcd(g, a, b)
    ensures a == g * p && b == g * q && a + b == g * (p + q) && (a + b) / g == p + q
    ensures q > 0 && Coprime(p + q, q, s, u)
  {
    var k :| a == g * k;
    var l :| b == g * l;
    NonnegFactor(g, k);
    NonnegFactor(g, l);
    p, q := k, l;
    var s', t' :| Combination(g, a, b, s', t');
    s, u := s', t' - s';
    CancelFactor(g, p, q, s', t');
    assert s * (p + q) + u * q == s' * p + t' * q;
    assert a + b == g * (p + q);
    QuotientIs(a + b, g, p + q);
  }

  lemma CancelFactor(g: int, p: int, q: int, s: int, t: int)
    requires g > 0 && g == s * (g * p) + t * (g * q)
    ensures s * p + t * q == 1
  {
    var m := s * p + t * q;
    assert g == g * m by {
      assert s * (g * p) == g * (s * p);
      assert t * (g * q) == g * (t * q);
    }
    NonnegFactor(g, m - 1);
    NonnegFactor(g, 1 - m);
  }

  lemma QuotientIs(x: int, g: int, n: int)
    requires g > 0 && x == g * n
    ensures x / g == n
  {
    var k, r := x / g, x % g;
    assert r == g * (n - k);
    SmallMultiple(r, g);
    NonnegFactor(g, n - k);
    NonnegFactor(g, k - n);
  }

  lemma MovedStays<T>(now: seq<T>, before: seq<T>, was: seq<T>, start: nat, g: nat, p: nat, q: nat, i: nat)
    requires |now| == |before| == |was| && start + g * (p + q) <= |now| && i < g
    requires Moved(before, was, start, g, p, q, i) && Kept(now, before, start, g, p + q, i)
    ensures Moved(now, was, start, g, p, q, i)
  {
    hide Place;
  }

  lemma MovedFrom<T>(now: seq<T>, before: seq<T>, was: seq<T>, start: nat, g: nat, p: nat, q: nat, i: nat)
    requires |now| == |before| == |was| && start + g * (p + q) <= |now| && i < g
    requires Moved(now, before, start, g, p, q, i) && Kept(before, was, start, g, p + q, i)
    ensures Moved(now, was, start, g, p, q, i)
  {
    hide Place;
  }

  /** The cycles before offset i have been followed. */
  ghost predicate MovedBefore<T>(now: seq<T>, was: seq<T>, start: nat, g: nat, p: nat, q: nat, i: nat)
    requires |now| == |was| && start + g * (p + q) <= |now|
  {
    && (forall i' :: 0 <= i' < i && i' < g ==> Moved(now, was, start, g, p, q, i'))
    && (forall i' :: i <= i' < g ==> KeptAt(now, was, start, g, p, q, i'))
    && (forall x :: 0 <= x < |now| && !(start <= x < start + g * (p + q)) ==> now[x] == was[x])
  }

  ghost predicate KeptAt<T>(now: seq<T>, was: seq<T>, start: nat, g: nat, p: nat, q: nat, i: nat)
    requires |now| == |was| && start + g * (p + q) <= |now| && i < g
  {
    Kept(now, was, start, g, p + q, i)
  }

  lemma NextCycle<T>(now: seq<T>, before: seq<T>, was: seq<T>, start: nat, g: nat, p: nat, q: nat, i: nat)
    requires |now| == |before| == |was| && start + g * (p + q) <= |now| && i < g
    requires MovedBefore(before, was, start, g, p, q, i)
    requires Moved(now, before, start, g, p, q, i) && ChangedOnly(now, before, start, g, p + q, i)
    ensures MovedBefore(now, was, start, g, p, q, i + 1)
  {
    hide Place, Moved;
    forall i' | 0 <= i' < i + 1 ensures Moved(now, was, start, g, p, q, i') {
      if i' == i {
        assert KeptAt(before, was, start, g, p, q, i);
        MovedFrom(now, before, was, start, g, p, q, i);
      } else {
        OffsetsApart(now, before, start, g, p + q, i, i');
        MovedStays(now, before, was, start, g, p, q, i');
      }
    }
    forall i' | i + 1 <= i' < g ensures KeptAt(now, was, start, g, p, q, i') {
      assert KeptAt(before, was, start, g, p, q, i');
      OffsetsApart(now, before, start, g, p + q, i, i');
    }
  }

  lemma ElementMoved<T>(now: seq<T>, was: seq<T>, start: nat, g: nat, p: nat, q: nat, x: nat)
    requires |now| == |was| && start + g * (p + q) <= |now| && g > 0 && start <= x < start + g * (p + q)
    requires MovedBefore(now, was, start, g, p, q, g)
    ensures var z := if x >= start + g * p then x - g * p else x + g * q;
      0 <= z < |now| && now[z] == was[x]
  {
    hide Place;
    var y, i := PlaceCovers(start, g, p + q, x);
    assert Moved(now, was, start, g, p, q, i);
    PlaceTarget(start, g, p, q, y, i);
  }

  /** With every element at its target, the two blocks have changed places, each in its own order. */
  lemma AllMoved<T>(now: seq<T>, was: seq<T>, start: nat, mid: nat, end: nat)
    requires start <= mid <= end <= |now| == |was|
    requires forall x :: start <= x < end ==> now[if x >= mid then x - (mid - start) else x + (end - mid)] == was[x]
    requires forall x :: 0 <= x < |now| && !(start <= x < end) ==> now[x] == was[x]
    ensures now == was[..start] + was[mid..end] + was[start..mid] + was[end..]
  {
    forall x | mid <= x < end ensures now[x - (mid - start)] == was[x] {
      assert now[if x >= mid then x - (mid - start) else x + (end - mid)] == was[x];
    }
    forall x | start <= x < mid ensures now[x + (end - mid)] == was[x] {
      assert now[if x >= mid then x - (mid - start) else x + (end - mid)] == was[x];
    }
    var swapped := was[..start] + was[mid..end] + was[start..mid] + was[end..];
    forall z | 0 <= z < |now| ensures now[z] == swapped[z] {
      if start <= z < start + (end - mid) {
        assert was[z + (mid - start)] == now[z];
      } else if start + (end - mid) <= z < end {
        assert was[z - (end - mid)] == now[z];
      }
    }
  }

  /** Exchanges the blocks [start, mid) and [mid, end) of `a` and keeps the order inside each. */
  method PermuteArgs<T>(a: array<T>, start: nat, mid: nat, end: nat)
    requires start <= mid < end <= a.Length
    modifies a
    ensures a[..] == old(a[..start] + a[mid..end] + a[start..mid] + a[end..])
  {
    hide Place, Coprime, IsGcd, Moved, Kept, ChangedOnly;
    ghost var was := a[..];
    var g := Gcd(mid - start, end - mid);
    assert g > 0 by { GcdPositive(g, mid - start, end - mid); }
    ghost var p, q, s, u := ScaledDown(g, mid - start, end - mid);
    var cycleLen := (end - start) / g;
    assert MovedBefore(a[..], was, start, g, p, q, 0) by { NothingMoved(was, start, g, p, q); }
    for i := 0 to g
      invariant MovedBefore(a[..], was, start, g, p, q, i)
    {
      ghost var before := a[..];
      PermuteCycle(a, start, mid, end, cycleLen, g, i, p, q, s, u);
      NextCycle(a[..], before, was, start, g, p, q, i);
    }
    forall x | start <= x < end
      ensures a[if x >= mid then x - (mid - start) else x + (end - mid)] == was[x]
    {
      ElementMoved(a[..], was, start, g, p, q, x);
    }
    AllMoved(a[..], was, start, mid, end);
  }

  lemma GcdPositive(g: int, a: int, b: int)
    requires IsGcd(g, a, b)
    ensures g > 0
  {
  }

  lemma NothingMoved<T>(was: seq<T>, start: nat, g: nat, p: nat, q: nat)
    requires start + g * (p + q) <= |was|
    ensures MovedBefore(was, was, start, g, p, q, 0)
  {
    hide Place;
  }
}
