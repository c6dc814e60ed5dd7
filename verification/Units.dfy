/**
 Ticks and radians over exact reals: positions are radians centred on tick 2048. Module Rounding
 adds the errors of double arithmetic.
 */
module Units {
  import opened Bytes

  /** The double that the C++ name M_PI stands for, exactly. */
  const M_PI: real := 3.141592653589793115997963468544185161590576171875
  const TICKS_PER_REV: real := 4096.0
  const CENTER_TICK: real := 2048.0
  const VELOCITY_UNIT_RPM: real := 0.229

  /** An angle held in a double: infinities are not modelled. */
  datatype Reading = NaN | Rad(value: real)

  function Abs(x: real): real { if x < 0.0 then -x else x }

  // Arithmetic with NaN: it spreads through every operation, and no comparison with it holds.

  function Plus(x: Reading, y: Reading): Reading { if x.NaN? || y.NaN? then NaN else Rad(x.value + y.value) }

  function Times(x: Reading, y: Reading): Reading { if x.NaN? || y.NaN? then NaN else Rad(x.value * y.value) }

  function Distance(x: Reading, y: Reading): Reading { if x.NaN? || y.NaN? then NaN else Rad(Abs(x.value - y.value)) }

  predicate Greater(x: Reading, y: Reading) { x.Rad? && y.Rad? && x.value > y.value }

  /** Radians per tick. */
  function Scale(): real { 2.0 * M_PI / TICKS_PER_REV }

  /** C's lround before its result is narrowed. */
  function LRound(x: real): int {
    if x >= 0.0 then (x + 0.5).Floor else -(0.5 - x).Floor
  }

  function TickToRad(tick: int): real {
    (tick as real - CENTER_TICK) * (2.0 * M_PI / TICKS_PER_REV)
  }

  /** The angle in ticks, before rounding and the cast to int32. */
  function RadInTicks(rad: real): real {
    rad * (TICKS_PER_REV / (2.0 * M_PI)) + CENTER_TICK
  }

  function RadToTick(rad: real): int {
    Wrap(LRound(RadInTicks(rad)), 4)
  }

  function RawToRadPerS(raw: int): real {
    raw as real * VELOCITY_UNIT_RPM * 2.0 * M_PI / 60.0
  }

  /** An angle whose tick fits the register, so that the cast loses nothing. */
  predicate InTickRange(rad: real) {
    InSignedRange(LRound(RadInTicks(rad)), 4)
  }

  /** A nearest integer, and of two equally near ones the one farther from zero. */
  predicate RoundsHalfAway(x: real, n: int) {
    && Abs(n as real - x) <= 0.5
    && (Abs(n as real - x) == 0.5 ==> Abs(n as real) > Abs(x))
  }

  lemma IntegersApart(m: int, n: int)
    ensures m == n || Abs(m as real - n as real) >= 1.0
  {
  }

  lemma LRoundIsHalfAway(x: real, n: int)
    ensures LRound(x) == n <==> RoundsHalfAway(x, n)
  {
    var r := LRound(x);
    assert RoundsHalfAway(x, r) by {
      if x >= 0.0 { assert r as real <= x + 0.5 < r as real + 1.0; }
      else { assert -r as real <= 0.5 - x < -r as real + 1.0; }
    }
    IntegersApart(n, r);
  }

  lemma LRoundMonotone(x: real, y: real)
    requires x <= y
    ensures LRound(x) <= LRound(y)
  {
    LRoundIsHalfAway(x, LRound(x));
    LRoundIsHalfAway(y, LRound(y));
  }

  lemma LRoundNear(x: real, n: int)
    requires Abs(x - n as real) < 0.5
    ensures LRound(x) == n
  {
    LRoundIsHalfAway(x, n);
  }

  lemma RadInTicksLinear(a: real, b: real)
    ensures RadInTicks(a) - RadInTicks(b) == (a - b) / Scale()
    ensures Scale() > 0.0
  {
  }

  /** A larger angle never gives a smaller tick, as long as neither tick is cut by the cast. */
  lemma RadToTickMonotone(a: real, b: real)
    requires a <= b && InTickRange(a) && InTickRange(b)
    ensures RadToTick(a) <= RadToTick(b)
  {
    RadInTicksLinear(a, b);
    LRoundMonotone(RadInTicks(a), RadInTicks(b));
    WrapSpec(LRound(RadInTicks(a)), 4);
    WrapSpec(LRound(RadInTicks(b)), 4);
  }

  lemma TickInTicks(tick: int)
    ensures RadInTicks(TickToRad(tick)) == tick as real
  {
  }

  /** Ticks survive the trip through radians exactly when they are int32 values. */
  lemma TickRoundTrip(tick: int)
    ensures RadToTick(TickToRad(tick)) == tick <==> InSignedRange(tick, 4)
  {
    TickInTicks(tick);
    LRoundNear(tick as real, tick);
    WrapSpec(tick, 4);
  }

  /** Commanding an in-range angle moves it by at most half a tick, which is pi/4096. */
  lemma QuantisationError(rad: real)
    requires InTickRange(rad)
    ensures Abs(TickToRad(RadToTick(rad)) - rad) <= M_PI / 4096.0
  {
    var n := LRound(RadInTicks(rad));
    WrapSpec(n, 4);
    LRoundIsHalfAway(RadInTicks(rad), n);
    TickInTicks(n);
    RadInTicksLinear(TickToRad(n), rad);
  }

  /** The mechanical centre is the zero pose; a pose that reads tick 0 is minus pi. */
  lemma CentreAndZero()
    ensures TickToRad(2048) == 0.0
    ensures TickToRad(0) == -M_PI
    ensures RadToTick(0.0) == 2048
  {
    TickRoundTrip(2048);
    Modulus4();
  }
}
