/** retry/backoff.go: the delay before a retry and the attempt budget.

    The float64 arithmetic of the source is modelled over the reals; the final
    conversion to a Duration truncates, and is clamped to the int64 range. */
module Backoffs {
  import opened Common

  const MAX_INT64 := 0x7fff_ffff_ffff_ffff

  datatype Backoff = Backoff(base: Duration, max: Duration, factor: real, maxAttempts: int, jitter: real)
  {
    /** The growth per attempt: 2 unless a factor above 1 is set. */
    function Growth(): (f: real)
      ensures f > 1.0
    {
      if factor <= 1.0 then 2.0 else factor
    }

    /** The delay around which the jitter of `attempt` is drawn. */
    function Centre(attempt: int): (d: real)
    {
      AtMost(max, Exact(attempt))
    }

    /** The delay without a cap. */
    function Exact(attempt: int): real {
      base as real * Pow(Growth(), if attempt < 1 then 0 else attempt - 1)
    }

    function NextWithRand(attempt: int, fraction: real): (d: Duration)
    {
      ToDuration(Moved(Centre(attempt), if jitter > 0.0 then Offset(fraction) else 0.0))
    }

    /** The share of the centre the jitter drawn at `fraction` adds: from [0,1)
        to [-1,1), scaled by the jitter. */
    function Offset(fraction: real): (o: real)
    {
      Share(Spread(fraction), jitter)
    }

    /** `delay` clamped to [0, max] and to int64, then truncated. */
    function ToDuration(delay: real): (d: Duration)
    {
      var positive := if delay < 0.0 then 0.0 else delay;
      var capped := if max > 0 && positive > max as real then max as real else positive;
      if capped >= MAX_INT64 as real then MAX_INT64 else capped.Floor
    }

    function Next(attempt: int): (d: Duration)
    {
      NextWithRand(attempt, 0.0)
    }

    /** The delay without jitter, as Next is documented. */
    function WithoutJitter(attempt: int): Duration {
      ToDuration(Centre(attempt))
    }

    /** The jitter that is applied: a Jitter that is not positive is none. */
    function Applied(): (j: real)
      ensures j >= 0.0
    {
      if jitter > 0.0 then jitter else 0.0
    }

    predicate Exhausted(attempts: int) {
      maxAttempts > 0 && attempts >= maxAttempts
    }
  }

  function AtMost(max: Duration, x: real): real {
    if max > 0 && x > max as real then max as real else x
  }

  function Spread(fraction: real): real {
    fraction * 2.0 - 1.0
  }

  function Share(x: real, j: real): real {
    x * j
  }

  function Moved(centre: real, offset: real): real {
    centre + centre * offset
  }

  function Pow(b: real, n: nat): (p: real)
    ensures b >= 1.0 ==> p >= 1.0
  {
    if n == 0 then 1.0 else
      var q := Pow(b, n - 1);
      assert b >= 1.0 ==> b * q >= q by { if b >= 1.0 { MulGrows(q, b); } }
      b * q
  }

  lemma MulGrows(x: real, b: real)
    requires x >= 0.0 && b >= 1.0
    ensures b * x >= x
  {
    assert (b - 1.0) * x >= 0.0;
  }

  lemma MulMonotone(x: real, y: real, k: real)
    requires x <= y && k >= 0.0
    ensures k * x <= k * y
  {
    assert k * (y - x) >= 0.0;
  }

  lemma {:induction false} PowMonotone(b: real, m: nat, n: nat)
    requires b >= 1.0 && m <= n
    ensures Pow(b, m) <= Pow(b, n)
    decreases n - m
  {
    if m < n {
      PowMonotone(b, m, n - 1);
      MulGrows(Pow(b, n - 1), b);
    }
  }

  /** A delay is a duration within the cap, and a usable one: never negative,
      never above int64, whatever the jitter drew. */
  lemma NextInRange(b: Backoff, attempt: int, fraction: real)
    ensures 0 <= b.NextWithRand(attempt, fraction) <= MAX_INT64
    ensures b.max > 0 ==> b.NextWithRand(attempt, fraction) <= b.max
  {
  }

  lemma ScaledMonotone(k: real, x: real, y: real)
    requires k >= 0.0 && 1.0 <= x <= y
    ensures 0.0 <= k * x <= k * y
  {
    MulMonotone(0.0, x, k);
    MulMonotone(x, y, k);
  }

  /** The exact delays go away from zero. */
  lemma ExactMonotone(b: Backoff, m: int, n: int)
    requires m <= n
    ensures if b.base >= 0 then 0.0 <= b.Exact(m) <= b.Exact(n) else b.Exact(n) <= b.Exact(m) <= 0.0
  {
    var i := if m < 1 then 0 else m - 1;
    var j := if n < 1 then 0 else n - 1;
    PowMonotone(b.Growth(), i, j);
    AwayFromZero(b.base as real, Pow(b.Growth(), i), Pow(b.Growth(), j));
  }

  lemma AwayFromZero(k: real, x: real, y: real)
    requires 1.0 <= x <= y
    ensures if k >= 0.0 then 0.0 <= k * x <= k * y else k * y <= k * x <= 0.0
  {
    if k >= 0.0 { ScaledMonotone(k, x, y); } else { ScaledDown(k, x, y); }
  }

  lemma ScaledDown(k: real, x: real, y: real)
    requires k <= 0.0 && 1.0 <= x <= y
    ensures k * y <= k * x <= 0.0
  {
    assert k * (y - x) <= 0.0;
    assert k * x <= 0.0;
  }

  lemma AtMostMonotone(max: Duration, x: real, y: real)
    requires x <= y
    ensures AtMost(max, x) <= AtMost(max, y) && (x >= 0.0 ==> AtMost(max, x) >= 0.0) &&
            (y <= 0.0 ==> AtMost(max, y) == y)
  {
  }

  lemma CentreMonotone(b: Backoff, m: int, n: int)
    requires m <= n
    ensures if b.base >= 0 then 0.0 <= b.Centre(m) <= b.Centre(n) else b.Centre(n) <= b.Centre(m) <= 0.0
  {
    ExactMonotone(b, m, n);
    if b.base >= 0 {
      AtMostMonotone(b.max, b.Exact(m), b.Exact(n));
    } else {
      AtMostMonotone(b.max, b.Exact(n), b.Exact(m));
    }
  }

  lemma ToDurationMonotone(b: Backoff, x: real, y: real)
    requires x <= y
    ensures b.ToDuration(x) <= b.ToDuration(y)
  {
  }

  lemma MovedIsProduct(x: real, offset: real)
    ensures Moved(x, offset) == (1.0 + offset) * x
  {
  }

  lemma SameSign(k: real, x: real, y: real)
    requires (k >= 0.0 && x <= y) || (k <= 0.0 && y <= x)
    ensures k * x <= k * y
  {
    assert k * (y - x) >= 0.0;
  }

  /** Two delays on one side of zero, scaled: in order still, or both below zero. */
  lemma ScaledInOrder(k: real, x: real, y: real)
    requires 0.0 <= x <= y || y <= x <= 0.0
    ensures k * x <= k * y || (k * x <= 0.0 && k * y <= 0.0)
  {
    if (k >= 0.0 && x <= y) || (k <= 0.0 && y <= x) {
      SameSign(k, x, y);
    }
  }

  lemma InOrder(b: Backoff, x: real, y: real)
    requires x <= y || (x <= 0.0 && y <= 0.0)
    ensures b.ToDuration(x) <= b.ToDuration(y)
  {
    if x <= y { ToDurationMonotone(b, x, y); }
  }

  lemma MovedMonotone(b: Backoff, x: real, y: real, offset: real)
    requires 0.0 <= x <= y || y <= x <= 0.0
    ensures b.ToDuration(Moved(x, offset)) <= b.ToDuration(Moved(y, offset))
  {
    ScaledInOrder(1.0 + offset, x, y);
    MovedIsProduct(x, offset);
    MovedIsProduct(y, offset);
    InOrder(b, Moved(x, offset), Moved(y, offset));
  }

  /** A later attempt never waits less, drawn at the same fraction. */
  lemma NextMonotone(b: Backoff, m: int, n: int, fraction: real)
    requires m <= n
    ensures b.NextWithRand(m, fraction) <= b.NextWithRand(n, fraction)
  {
    CentreMonotone(b, m, n);
    MovedMonotone(b, b.Centre(m), b.Centre(n), if b.jitter > 0.0 then b.Offset(fraction) else 0.0);
  }

  lemma OffsetBounds(b: Backoff, fraction: real)
    requires b.jitter >= 0.0 && 0.0 <= fraction < 1.0
    ensures -b.jitter <= b.Offset(fraction) <= b.jitter
  {
    SpreadBounds(fraction);
    ShareBounds(Spread(fraction), b.jitter);
  }

  lemma SpreadBounds(fraction: real)
    requires 0.0 <= fraction < 1.0
    ensures -1.0 <= Spread(fraction) <= 1.0
  {
  }

  lemma ShareBounds(x: real, j: real)
    requires -1.0 <= x <= 1.0 && j >= 0.0
    ensures -j <= Share(x, j) <= j
  {
    MulMonotone(-1.0, x, j);
    MulMonotone(x, 1.0, j);
  }

  lemma LowestOffset(b: Backoff)
    ensures b.Offset(0.0) == -b.jitter
  {
  }

  lemma MovedBetween(b: Backoff, c: real, low: real, high: real)
    requires low <= high
    ensures c >= 0.0 ==> b.ToDuration(Moved(c, low)) <= b.ToDuration(Moved(c, high))
    ensures c <= 0.0 ==> b.ToDuration(Moved(c, high)) <= b.ToDuration(Moved(c, low))
  {
    if c >= 0.0 {
      SameSign(c, low, high);
      ToDurationMonotone(b, Moved(c, low), Moved(c, high));
    } else {
      SameSign(c, high, low);
      ToDurationMonotone(b, Moved(c, high), Moved(c, low));
    }
  }

  /** Jitter keeps a delay within its share of the centre, and Next, documented
      as the delay without jitter, draws fraction 0: the end where the jitter is
      taken off. */
  lemma JitterBounds(b: Backoff, attempt: int, fraction: real)
    requires 0.0 <= fraction < 1.0
    ensures b.Next(attempt) == b.ToDuration(Moved(b.Centre(attempt), -b.Applied()))
    ensures
      var drawn, other := b.NextWithRand(attempt, fraction), b.ToDuration(Moved(b.Centre(attempt), b.Applied()));
      if b.base >= 0 then b.Next(attempt) <= drawn <= other else other <= drawn <= b.Next(attempt)
  {
    CentreMonotone(b, attempt, attempt);
    LowestOffset(b);
    if b.jitter > 0.0 { OffsetBounds(b, fraction); }
    var drawn := if b.jitter > 0.0 then b.Offset(fraction) else 0.0;
    MovedBetween(b, b.Centre(attempt), -b.Applied(), drawn);
    MovedBetween(b, b.Centre(attempt), drawn, b.Applied());
  }

  // ----- when Next is the delay without jitter -----

  /** What the jitter takes off the centre is lost in whole nanoseconds: less than
      the fraction of a nanosecond the centre has, or all of it below one, or it
      stays out of range. */
  predicate JitterVanishes(c: real, taken: real) {
    if c >= MAX_INT64 as real then c - taken >= MAX_INT64 as real
    else if c >= 1.0 then taken <= c - c.Floor as real
    else c >= 0.0 || c - taken < 1.0
  }

  lemma SameWhole(b: Backoff, c: real, taken: real)
    requires (c >= 0.0 ==> taken >= 0.0) && (c <= 0.0 ==> taken <= 0.0) && (b.max > 0 ==> c <= b.max as real)
    ensures b.ToDuration(c - taken) == b.ToDuration(c) <==> JitterVanishes(c, taken)
  {
  }

  lemma CentreIsUnderMax(b: Backoff, attempt: int)
    ensures b.max > 0 ==> b.Centre(attempt) <= b.max as real
  {
  }

  lemma TakenHasTheSign(c: real, j: real)
    requires j >= 0.0
    ensures (c >= 0.0 ==> c * j >= 0.0) && (c <= 0.0 ==> c * j <= 0.0)
    ensures Moved(c, -j) == c - c * j
  {
  }

  lemma SameMoved(b: Backoff, c: real, j: real)
    requires j >= 0.0 && (b.max > 0 ==> c <= b.max as real)
    ensures b.ToDuration(Moved(c, -j)) == b.ToDuration(c) <==> JitterVanishes(c, c * j)
  {
    TakenHasTheSign(c, j);
    SameWhole(b, c, c * j);
  }

  lemma NextIsTheLowEnd(b: Backoff, attempt: int)
    ensures b.Next(attempt) == b.ToDuration(Moved(b.Centre(attempt), -b.Applied()))
  {
    LowestOffset(b);
  }

  /** Next is the delay without jitter if and only if what the jitter takes off
      the centre c vanishes; without a Jitter nothing is taken off. */
  lemma NextIsWithoutJitterIff(b: Backoff, attempt: int, c: real, j: real)
    requires c == b.Centre(attempt) && j == b.Applied()
    ensures b.Next(attempt) == b.WithoutJitter(attempt) <==> JitterVanishes(c, c * j)
    ensures j == 0.0 ==> b.Next(attempt) == b.WithoutJitter(attempt)
  {
    CentreIsUnderMax(b, attempt);
    NextIsTheLowEnd(b, attempt);
    SameMoved(b, c, j);
  }

  /** A base of a second with a jitter of a fifth: 800ms, not one second. */
  lemma NextTakesJitterOff()
    ensures
      var b := Backoff(1_000_000_000, 0, 2.0, 0, 0.2);
      b.Next(1) == 800_000_000 && b.WithoutJitter(1) == 1_000_000_000
  {
    var b := Backoff(1_000_000_000, 0, 2.0, 0, 0.2);
    assert Pow(2.0, 0) == 1.0 && b.Exact(1) == 1_000_000_000.0 && b.Centre(1) == 1_000_000_000.0;
    LowestOffset(b);
    assert Moved(1_000_000_000.0, -0.2) == 800_000_000.0;
  }

  // ----- the growth and the budget -----

  /** The delays start at Base and, under no cap, each is the Factor times the one
      before; the Factor is 2 unless one above 1 is set. A cap only cuts them. */
  lemma GrowsByFactor(b: Backoff, n: int)
    requires n >= 1
    ensures b.Exact(1) == b.base as real
    ensures b.factor > 1.0 ==> b.Exact(n + 1) == b.factor * b.Exact(n)
    ensures b.factor <= 1.0 ==> b.Exact(n + 1) == 2.0 * b.Exact(n)
    ensures b.max <= 0 ==> b.Centre(n) == b.Exact(n)
    ensures b.max > 0 ==> b.Centre(n) == if b.Exact(n) > b.max as real then b.max as real else b.Exact(n)
  {
    assert Pow(b.Growth(), 0) == 1.0;
    Regroup(b.base as real, b.Growth(), Pow(b.Growth(), n - 1));
  }

  lemma Regroup(x: real, f: real, p: real)
    ensures x * (f * p) == f * (x * p)
  {
  }

  /** The backoff of a queue without options: 2s doubling up to 5 minutes, no
      budget, no jitter. */
  const QUEUE_BACKOFF := Backoff(2 * SECOND, 5 * MINUTE, 2.0, 0, 0.0)

  function DoubledSeconds(attempt: int): int {
    if attempt <= 1 then 2
    else if attempt >= 9 then 300
    else 2 * DoubledSeconds(attempt - 1)
  }

  lemma DoubledIsSmall(n: nat)
    requires n <= 7
    ensures DoubledSeconds(n + 1) <= 256
  {
    assert DoubledSeconds(3) == 8 && DoubledSeconds(5) == 32 && DoubledSeconds(7) == 128;
  }

  lemma PowStep(n: nat)
    requires n > 0
    ensures Pow(2.0, n) == 2.0 * Pow(2.0, n - 1)
  {
  }

  lemma {:induction false} DoublingIsExact(n: nat)
    requires n <= 7
    ensures 2.0 * Pow(2.0, n) == DoubledSeconds(n + 1) as real
  {
    if n > 0 {
      DoublingIsExact(n - 1);
      PowStep(n);
    }
  }

  lemma {:induction false} DoublingSaturates(n: nat)
    requires n >= 8
    ensures Pow(2.0, n) >= 256.0
  {
    PowStep(n);
    if n == 8 {
      DoublingIsExact(7);
      assert DoubledSeconds(8) == 256 by { assert DoubledSeconds(4) == 16 && DoubledSeconds(6) == 64; }
    } else {
      DoublingSaturates(n - 1);
    }
  }

  lemma Doubling(n: nat)
    ensures n <= 7 ==> 2.0 * Pow(2.0, n) == DoubledSeconds(n + 1) as real && DoubledSeconds(n + 1) <= 256
    ensures n >= 8 ==> Pow(2.0, n) >= 256.0
  {
    if n >= 8 {
      DoublingSaturates(n);
    } else {
      DoublingIsExact(n);
      DoubledIsSmall(n);
    }
  }

  lemma QueueCentre(n: nat)
    ensures QUEUE_BACKOFF.Centre(n + 1) == (DoubledSeconds(n + 1) * SECOND) as real
  {
    Doubling(n);
    QueueCentreIsCapped(n + 1);
    SaturateAt300(Pow(2.0, n), DoubledSeconds(n + 1), n >= 8);
  }

  lemma QueueCentreIsCapped(attempt: int)
    requires attempt >= 1
    ensures QUEUE_BACKOFF.Centre(attempt) == Capped(Pow(2.0, attempt - 1))
  {
    CentreIsCapped(QUEUE_BACKOFF, attempt, (2 * SECOND) as real, Pow(2.0, attempt - 1));
  }

  lemma CentreIsCapped(b: Backoff, attempt: int, base: real, p: real)
    requires attempt >= 1 && b.base as real == base == 2_000_000_000.0 && b.max as real == 300_000_000_000.0
    requires p == Pow(b.Growth(), attempt - 1)
    ensures b.Centre(attempt) == Capped(p)
  {
  }

  function Capped(p: real): real {
    var exact := 2_000_000_000.0 * p;
    if exact > 300_000_000_000.0 then 300_000_000_000.0 else exact
  }

  lemma SaturateAt300(p: real, seconds: int, capped: bool)
    requires capped ==> p >= 256.0 && seconds == 300
    requires !capped ==> 2.0 * p == seconds as real && seconds <= 256
    ensures Capped(p) == (seconds * SECOND) as real
  {
    assert SECOND == 1_000_000_000;
  }

  /** The default delays are 2, 4, 8, ... 256 seconds, then 5 minutes for good;
      the budget is never spent. */
  lemma QueueDelays(attempt: int)
    ensures QUEUE_BACKOFF.Next(attempt) == DoubledSeconds(attempt) * SECOND
    ensures 2 * SECOND <= QUEUE_BACKOFF.Next(attempt) <= 5 * MINUTE
    ensures !QUEUE_BACKOFF.Exhausted(attempt)
  {
    DoubledRange(attempt);
    QueueCentreAt(attempt);
    InSeconds(DoubledSeconds(attempt));
    WholeDelay(QUEUE_BACKOFF, attempt, DoubledSeconds(attempt) * SECOND);
  }

  lemma QueueCentreAt(attempt: int)
    ensures QUEUE_BACKOFF.Centre(attempt) == (DoubledSeconds(attempt) * SECOND) as real
  {
    if attempt < 1 {
      QueueCentre(0);
      assert DoubledSeconds(attempt) == DoubledSeconds(1);
    } else {
      QueueCentre(attempt - 1);
    }
  }

  lemma InSeconds(d: int)
    requires 2 <= d <= 300
    ensures 2 * SECOND <= d * SECOND <= 5 * MINUTE == QUEUE_BACKOFF.max < MAX_INT64
  {
    assert SECOND == 1_000_000_000 && MINUTE == 60_000_000_000;
  }

  /** Without jitter a delay that is a whole number below the cap is taken as it
      is. */
  lemma WholeDelay(b: Backoff, attempt: int, d: int)
    requires b.jitter == 0.0 && b.Centre(attempt) == d as real && 0 <= d <= b.max && d < MAX_INT64
    ensures b.Next(attempt) == d
  {
    assert Moved(d as real, 0.0) == d as real;
  }

  lemma DoubledRange(attempt: int)
    ensures 2 <= DoubledSeconds(attempt) <= 300
  {
    assert DoubledSeconds(2) == 4 && DoubledSeconds(3) == 8 && DoubledSeconds(4) == 16;
    assert DoubledSeconds(5) == 32 && DoubledSeconds(6) == 64 && DoubledSeconds(7) == 128;
    assert DoubledSeconds(8) == 256;
  }
}
