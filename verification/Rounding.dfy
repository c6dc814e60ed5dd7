/**
 The tick conversions and the mirror's map in double arithmetic. Every operation returns its exact
 result times a factor 1 + d with |d| <= 2^-53, the guarantee of round-to-nearest for binary64
 (section 4.3.1 of IEEE 754-2019). Scaling M_PI by a power of two is exact; dividing by it is not.
 */
module Rounding {
  import opened Bytes
  import opened Units

  /** Half the distance from 1 to the next double, 2^-53. */
  const UNIT_ROUNDOFF: real := 1.0 / 9007199254740992.0

  function Rounded(exact: real, d: real): real { exact * (1.0 + d) }

  predicate Tiny(d: real) { -UNIT_ROUNDOFF <= d <= UNIT_ROUNDOFF }

  /** One relative error for every double operation between two encoders. */
  datatype Errors = Errors(centre: real, scale: real, sign: real, offset: real,
                           ratio: real, unscale: real, shift: real)
  {
    predicate Valid() {
      && Tiny(centre) && Tiny(scale) && Tiny(sign) && Tiny(offset)
      && Tiny(ratio) && Tiny(unscale) && Tiny(shift)
    }
  }

  function TickToRad(tick: int, e: Errors): real {
    Rounded(Rounded(tick as real - CENTER_TICK, e.centre) * (2.0 * M_PI / TICKS_PER_REV), e.scale)
  }

  function Mapped(sign: real, leader: real, offset: real, e: Errors): real {
    Rounded(Rounded(sign * leader, e.sign) + offset, e.offset)
  }

  /** The angle in ticks when a radian is `ticksPerRad` of them, itself a rounded quotient. */
  function InTicks(rad: real, ticksPerRad: real, e: Errors): real {
    Rounded(Rounded(rad * Rounded(ticksPerRad, e.ratio), e.unscale) + CENTER_TICK, e.shift)
  }

  function RadToTick(rad: real, e: Errors): int {
    Wrap(LRound(InTicks(rad, TICKS_PER_REV / (2.0 * M_PI), e)), 4)
  }

  /** `got` has a relative error of at most `e`. */
  predicate Near(got: real, exact: real, e: real) {
    Abs(got - exact) <= e * Abs(exact)
  }

  lemma ProductMonotone(a: real, b: real, c: real)
    requires a <= b && 0.0 <= c
    ensures a * c <= b * c
  {
  }

  lemma Shrink(e: real, x: real, g: real)
    requires 0.0 <= e <= 1.0 && 0.0 <= x && g <= e * x
    ensures g <= x
  {
    ProductMonotone(e, 1.0, x);
  }

  lemma ProductBound(a: real, b: real, bound: real)
    requires Abs(b) <= bound
    ensures Abs(a * b) <= Abs(a) * bound
  {
    ProductMonotone(Abs(b), bound, Abs(a));
    assert Abs(a * b) == Abs(a) * Abs(b);
  }

  /** One more rounding costs at most two unit roundoffs. */
  lemma RoundOnce(got: real, exact: real, e: real, d: real)
    requires 0.0 <= e <= 1.0 && Near(got, exact, e) && Tiny(d)
    ensures Near(Rounded(got, d), exact, e + 2.0 * UNIT_ROUNDOFF)
  {
    var x := Abs(exact);
    Shrink(e, x, Abs(got - exact));
    assert Abs(got) <= 2.0 * x;
    ProductBound(got, d, UNIT_ROUNDOFF);
    assert Rounded(got, d) - exact == (got - exact) + got * d;
    ProductMonotone(Abs(got), 2.0 * x, UNIT_ROUNDOFF);
    assert (e + 2.0 * UNIT_ROUNDOFF) * x == e * x + 2.0 * x * UNIT_ROUNDOFF;
  }

  lemma ScaleNear(got: real, exact: real, e: real, c: real)
    requires Near(got, exact, e)
    ensures Near(got * c, exact * c, e)
  {
    ProductMonotone(Abs(got - exact), e * Abs(exact), Abs(c));
    assert got * c - exact * c == (got - exact) * c;
    assert Abs((got - exact) * c) == Abs(got - exact) * Abs(c);
    assert Abs(exact * c) == Abs(exact) * Abs(c);
    assert e * Abs(exact) * Abs(c) == e * Abs(exact * c);
  }

  lemma FirstRounding(x: real, d: real)
    requires Tiny(d)
    ensures Near(Rounded(x, d), x, 2.0 * UNIT_ROUNDOFF)
  {
    RoundOnce(x, x, 0.0, d);
  }

  lemma ScaleAndRound(r: real, x: real, scale: real, d: real)
    requires Tiny(d) && Near(r, x, 2.0 * UNIT_ROUNDOFF)
    ensures Near(Rounded(r * scale, d), x * scale, 4.0 * UNIT_ROUNDOFF)
  {
    ScaleNear(r, x, 2.0 * UNIT_ROUNDOFF, scale);
    var p, q := r * scale, x * scale;
    RoundOnce(p, q, 2.0 * UNIT_ROUNDOFF, d);
  }

  /** A tick leaves the encoder as its exact angle, four unit roundoffs off at most. */
  lemma TickToRadNear(tick: int, e: Errors)
    requires e.Valid()
    ensures Near(TickToRad(tick, e), Units.TickToRad(tick), 4.0 * UNIT_ROUNDOFF)
  {
    var x := tick as real - CENTER_TICK;
    var r := Rounded(x, e.centre);
    FirstRounding(x, e.centre);
    ScaleAndRound(r, x, 2.0 * M_PI / TICKS_PER_REV, e.scale);
  }

  lemma MappedNear(sign: real, leader: real, exact: real, e: Errors)
    requires e.Valid() && Near(leader, exact, 4.0 * UNIT_ROUNDOFF)
    ensures Near(Mapped(sign, leader, 0.0, e), sign * exact, 8.0 * UNIT_ROUNDOFF)
  {
    ScaleNear(leader, exact, 4.0 * UNIT_ROUNDOFF, sign);
    RoundOnce(sign * leader, sign * exact, 4.0 * UNIT_ROUNDOFF, e.sign);
    RoundOnce(Rounded(sign * leader, e.sign) + 0.0, sign * exact, 6.0 * UNIT_ROUNDOFF, e.offset);
  }

  /** For any sign and offset the rounded map stays within a few unit roundoffs of its terms. */
  lemma MappedWithin(sign: real, leader: real, offset: real, e: Errors)
    requires e.Valid()
    ensures Abs(Mapped(sign, leader, offset, e) - (sign * leader + offset))
         <= UNIT_ROUNDOFF * (3.0 * Abs(sign * leader) + Abs(offset))
  {
    TwoRoundings(sign * leader, offset, e.sign, e.offset);
  }

  lemma TwoRoundings(p: real, o: real, d: real, f: real)
    requires Tiny(d) && Tiny(f)
    ensures Abs(Rounded(Rounded(p, d) + o, f) - (p + o)) <= UNIT_ROUNDOFF * (3.0 * Abs(p) + Abs(o))
  {
    var q := Rounded(p, d);
    var r := Rounded(q + o, f);
    RoundedWithin(p, d);
    RoundedWithin(q + o, f);
    hide Rounded;
    ErrorsAdd(p, o, q, r);
  }

  lemma RoundedWithin(x: real, d: real)
    requires Tiny(d)
    ensures Abs(Rounded(x, d) - x) <= UNIT_ROUNDOFF * Abs(x)
  {
    assert Rounded(x, d) - x == x * d;
    if x >= 0.0 {
      assert -UNIT_ROUNDOFF * x <= x * d <= UNIT_ROUNDOFF * x;
    } else {
      assert UNIT_ROUNDOFF * x <= x * d <= -UNIT_ROUNDOFF * x;
    }
  }

  lemma ErrorsAdd(p: real, o: real, q: real, r: real)
    requires Abs(q - p) <= UNIT_ROUNDOFF * Abs(p) && Abs(r - (q + o)) <= UNIT_ROUNDOFF * Abs(q + o)
    ensures Abs(r - (p + o)) <= UNIT_ROUNDOFF * (3.0 * Abs(p) + Abs(o))
  {
  }

  lemma SmallError(y: real, x: real)
    requires Near(y, x, 12.0 * UNIT_ROUNDOFF) && Abs(x) <= 8589934592.0
    ensures Abs(y - x) <= 0.01
  {
    ProductMonotone(Abs(x), 8589934592.0, 12.0 * UNIT_ROUNDOFF);
    assert 8589934592.0 * (12.0 * UNIT_ROUNDOFF) <= 0.01;
    assert Abs(y - x) <= Abs(x) * (12.0 * UNIT_ROUNDOFF);
  }

  lemma RoundSmall(z: real, d: real)
    requires Abs(z) <= 17179869184.0 && Tiny(d)
    ensures Abs(Rounded(z, d) - z) <= 0.01
  {
    ProductBound(z, d, UNIT_ROUNDOFF);
    ProductMonotone(Abs(z), 17179869184.0, UNIT_ROUNDOFF);
    assert Rounded(z, d) - z == z * d;
  }

  /** The last addition happens among numbers far below 2^52, so its error stays below half a tick. */
  lemma LastRounding(y: real, tick: int, d: real)
    requires Near(y, tick as real - CENTER_TICK, 12.0 * UNIT_ROUNDOFF) && Tiny(d)
    requires -0x1_0000_0000 <= tick <= 0x1_0000_0000
    ensures Abs(Rounded(y + CENTER_TICK, d) - tick as real) < 0.5
  {
    SmallError(y, tick as real - CENTER_TICK);
    RoundSmall(y + CENTER_TICK, d);
  }

  lemma Reassociate(a: real, b: real, d: real)
    ensures a * Rounded(b, d) == Rounded(a * b, d)
  {
  }

  lemma FinishNear(m: real, tick: int, unscale: real, shift: real)
    requires Tiny(unscale) && Tiny(shift) && Near(m, tick as real - CENTER_TICK, 10.0 * UNIT_ROUNDOFF)
    requires -0x1_0000_0000 <= tick <= 0x1_0000_0000
    ensures LRound(Rounded(Rounded(m, unscale) + CENTER_TICK, shift)) == tick
  {
    RoundOnce(m, tick as real - CENTER_TICK, 10.0 * UNIT_ROUNDOFF, unscale);
    LastRounding(Rounded(m, unscale), tick, shift);
    LRoundNear(Rounded(Rounded(m, unscale) + CENTER_TICK, shift), tick);
  }

  /** Rounding a factor is like rounding the product. */
  lemma FactorNear(a: real, b: real, x: real, d: real)
    requires Near(a * b, x, 8.0 * UNIT_ROUNDOFF) && Tiny(d)
    ensures Near(a * Rounded(b, d), x, 10.0 * UNIT_ROUNDOFF)
  {
    var p := a * b;
    RoundOnce(p, x, 8.0 * UNIT_ROUNDOFF, d);
    Reassociate(a, b, d);
  }

  lemma InTicksNear(rad: real, c: real, tick: int, e: Errors)
    requires e.Valid() && Near(rad * c, tick as real - CENTER_TICK, 8.0 * UNIT_ROUNDOFF)
    requires -0x1_0000_0000 <= tick <= 0x1_0000_0000
    ensures LRound(InTicks(rad, c, e)) == tick
  {
    hide Near;
    FactorNear(rad, c, tick as real - CENTER_TICK, e.ratio);
    FinishNear(rad * Rounded(c, e.ratio), tick, e.unscale, e.shift);
  }

  lemma TickTimesRatio(tick: int)
    ensures Units.TickToRad(tick) * (TICKS_PER_REV / (2.0 * M_PI)) == tick as real - CENTER_TICK
  {
    TickInTicks(tick);
  }

  /** An angle a few unit roundoffs off the exact angle of a tick is converted to that tick. */
  lemma RadToTickNear(rad: real, tick: int, e: Errors)
    requires e.Valid() && Near(rad, Units.TickToRad(tick), 8.0 * UNIT_ROUNDOFF)
    requires -0x1_0000_0000 <= tick <= 0x1_0000_0000
    ensures RadToTick(rad, e) == Wrap(tick, 4)
  {
    TickTimesRatio(tick);
    ScaleNear(rad, Units.TickToRad(tick), 8.0 * UNIT_ROUNDOFF, TICKS_PER_REV / (2.0 * M_PI));
    InTicksNear(rad, TICKS_PER_REV / (2.0 * M_PI), tick, e);
  }

  lemma NearWeaken(got: real, exact: real, e: real, f: real)
    requires Near(got, exact, e) && e <= f
    ensures Near(got, exact, f)
  {
    ProductMonotone(e, f, Abs(exact));
  }

  /** The driver's own round trip survives rounding. */
  lemma TickRoundTripRounded(tick: int, e: Errors)
    requires e.Valid() && InSignedRange(tick, 4)
    ensures RadToTick(TickToRad(tick, e), e) == tick
  {
    Modulus4();
    TickToRadNear(tick, e);
    NearWeaken(TickToRad(tick, e), Units.TickToRad(tick), 4.0 * UNIT_ROUNDOFF, 8.0 * UNIT_ROUNDOFF);
    RadToTickNear(TickToRad(tick, e), tick, e);
    WrapSpec(tick, 4);
  }
}
