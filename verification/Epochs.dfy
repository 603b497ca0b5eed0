/** The epoch arithmetic of the rotating source, with Go's 64-bit durations (keysource/randomsource). */
module Epochs {
  import opened Keys

  const MAX_INT64 := 0x7FFF_FFFF_FFFF_FFFF
  const MIN_INT64 := -0x8000_0000_0000_0000
  const TWO_TO_THE_64 := 0x1_0000_0000_0000_0000

  predicate IsInt64(x: int) { MIN_INT64 <= x <= MAX_INT64 }

  /** The result of int64 arithmetic, which wraps around. */
  function Wrap(x: int): (r: int)
    ensures IsInt64(r) && (x - r) % TWO_TO_THE_64 == 0 && (IsInt64(x) ==> r == x)
  {
    (x - MIN_INT64) % TWO_TO_THE_64 + MIN_INT64
  }

  /** `Time.Sub`, which saturates. */
  function Sub(a: Time, b: Time): (r: int)
    ensures IsInt64(r) && (IsInt64(a - b) ==> r == a - b)
  {
    if a - b > MAX_INT64 then MAX_INT64 else if a - b < MIN_INT64 then MIN_INT64 else a - b
  }

  /** Go's integer division, which truncates toward zero. */
  function Quotient(a: int, b: int): int
    requires b > 0
  {
    if a >= 0 then a / b else -(-a / b)
  }

  /** `int64(now.Sub(base) / lifetime)` */
  function EpochAt(base: Time, now: Time, lifetime: int): int
    requires lifetime > 0
  {
    Quotient(Sub(now, base), lifetime)
  }

  /** `base.Add(time.Duration(epoch) * lifetime)` */
  function StartOf(base: Time, epoch: int, lifetime: int): Time { base + Wrap(epoch * lifetime) }

  /** `start.Add(2 * lifetime)` */
  function EndOf(start: Time, lifetime: int): Time { start + Wrap(2 * lifetime) }

  /** The deadline the watcher waits for. */
  function Deadline(base: Time, epoch: int, lifetime: int): Time { StartOf(base, Wrap(epoch + 1), lifetime) }

  /** The clock has not gone back, and elapsed time plus one lifetime, and two lifetimes, fit a duration. */
  predicate Fits(base: Time, now: Time, lifetime: int) {
    && 0 < lifetime && 2 * lifetime <= MAX_INT64
    && base <= now && now - base + lifetime <= MAX_INT64
  }

  /** Division truncates toward zero: a negative dividend gives the negated quotient. */
  lemma QuotientTruncates(a: int, b: int)
    requires a > 0 && b > 0
    ensures Quotient(a, b) == a / b && Quotient(0 - a, b) == 0 - a / b
  {
    assert 0 - (0 - a) == a;
  }

  /** Subtraction of instants stops at the ends of the range of durations. */
  lemma SubSaturates(a: Time, b: Time)
    ensures a - b >= MAX_INT64 ==> Sub(a, b) == 0x7FFF_FFFF_FFFF_FFFF
    ensures a - b <= MIN_INT64 ==> Sub(a, b) == -0x8000_0000_0000_0000
  {
  }

  lemma QuotientBounds(a: nat, b: int)
    requires b > 0
    ensures (a / b) * b <= a < (a / b + 1) * b
  {
    assert a == (a / b) * b + a % b;
  }

  /** While things fit, the epoch counts whole lifetimes since the base. */
  lemma EpochCountsLifetimes(base: Time, now: Time, lifetime: int)
    requires Fits(base, now, lifetime)
    ensures var e := EpochAt(base, now, lifetime);
      && e >= 0 && e * lifetime <= now - base < (e + 1) * lifetime
  {
    QuotientBounds(now - base, lifetime);
  }

  lemma ProductBetween(x: int, y: int, n: int)
    requires x <= y && n > 0
    ensures x * n <= y * n
  {
  }

  lemma QuotientGrows(a: nat, b: nat, n: int)
    requires a <= b && n > 0
    ensures a / n <= b / n
  {
    QuotientBounds(a, n);
    QuotientBounds(b, n);
    if b / n < a / n {
      ProductBetween(b / n + 1, a / n, n);
    }
  }

  lemma EpochMonotone(base: Time, now: Time, later: Time, lifetime: int)
    requires lifetime > 0 && base <= now <= later
    ensures 0 <= EpochAt(base, now, lifetime) <= EpochAt(base, later, lifetime)
  {
    QuotientGrows(Sub(now, base), Sub(later, base), lifetime);
  }

  /** No product, sum or duration in a rotation at `now` overflows. */
  lemma NothingOverflows(base: Time, now: Time, lifetime: int)
    requires Fits(base, now, lifetime)
    ensures var e := EpochAt(base, now, lifetime);
      && IsInt64(e - 1) && IsInt64(e) && IsInt64(e + 1)
      && (forall w | w in {e - 1, e, e + 1} ::
            StartOf(base, w, lifetime) == base + w * lifetime
            && EndOf(StartOf(base, w, lifetime), lifetime) == base + (w + 2) * lifetime)
      && Deadline(base, e, lifetime) == base + (e + 1) * lifetime
  {
    var e := EpochAt(base, now, lifetime);
    EpochCountsLifetimes(base, now, lifetime);
    ProductBetween(-1, e - 1, lifetime);
    ProductBetween(e - 1, e, lifetime);
    ProductBetween(e, e + 1, lifetime);
    ProductBetween(1, lifetime, e + 1);
    assert (e + 1) * lifetime == e * lifetime + lifetime <= MAX_INT64;
    forall w | w in {e - 1, e, e + 1}
      ensures StartOf(base, w, lifetime) == base + w * lifetime
      ensures EndOf(StartOf(base, w, lifetime), lifetime) == base + (w + 2) * lifetime
    {
      assert -lifetime <= w * lifetime <= MAX_INT64;
      assert (w + 2) * lifetime == w * lifetime + 2 * lifetime;
    }
  }

  /** Outside these bounds durations do wrap around: a start and a deadline are exact if and only if the product
      fits, an end if and only if two lifetimes do, and beyond that an end is before its start. */
  lemma ExactUnlessOverflow(base: Time, epoch: int, lifetime: int)
    requires IsInt64(epoch) && 0 < lifetime <= MAX_INT64
    ensures StartOf(base, epoch, lifetime) == base + epoch * lifetime <==> IsInt64(epoch * lifetime)
    ensures Deadline(base, epoch, lifetime) == base + (epoch + 1) * lifetime <==> IsInt64((epoch + 1) * lifetime)
    ensures IsInt64(StartOf(base, epoch, lifetime) - base) && IsInt64(Deadline(base, epoch, lifetime) - base)
    ensures EndOf(base, lifetime) == base + 2 * lifetime <==> 2 * lifetime <= MAX_INT64
    ensures 2 * lifetime > MAX_INT64 ==> EndOf(base, lifetime) < base
  {
    if epoch == MAX_INT64 {
      ProductBetween(1, lifetime, epoch + 1);
    }
  }

  /** The watcher's deadline is reached exactly when the epoch has advanced: a timer never fires for nothing. */
  lemma DeadlineMeansAdvance(base: Time, now: Time, later: Time, lifetime: int)
    requires Fits(base, now, lifetime) && now <= later && Fits(base, later, lifetime)
    ensures var e := EpochAt(base, now, lifetime);
      later >= Deadline(base, e, lifetime) <==> EpochAt(base, later, lifetime) > e
  {
    var e, e' := EpochAt(base, now, lifetime), EpochAt(base, later, lifetime);
    NothingOverflows(base, now, lifetime);
    EpochCountsLifetimes(base, later, lifetime);
    if e' > e {
      ProductBetween(e + 1, e', lifetime);
    } else {
      ProductBetween(e' + 1, e + 1, lifetime);
    }
  }
}
