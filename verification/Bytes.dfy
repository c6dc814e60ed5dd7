/**
 Registers travel as little-endian bytes. This module relates C++ integers, whose casts to a
 fixed width wrap around, to those bytes, and the bytes back to signed and unsigned integers.
 */
module Bytes {
  type Byte = b: int | 0 <= b < 256

  /** Number of values a register of `size` bytes can take: 2^(8 * size). */
  function Modulus(size: nat): (m: int)
    ensures m > 0
    ensures size > 0 ==> m % 2 == 0
  {
    if size == 0 then 1 else 256 * Modulus(size - 1)
  }

  /** The low `size` bytes of the two's complement form of `v`, least significant first. */
  function Encode(v: int, size: nat): (bs: seq<Byte>)
    ensures |bs| == size
    decreases size
  {
    if size == 0 then [] else [v % 256] + Encode(v / 256, size - 1)
  }

  function Unsigned(bs: seq<Byte>): (u: nat)
    ensures u < Modulus(|bs|)
  {
    if bs == [] then 0 else bs[0] + 256 * Unsigned(bs[1..])
  }

  /** A conversion to a signed C++ integer of `size` bytes. */
  function Wrap(v: int, size: nat): int {
    var m := v % Modulus(size);
    if 2 * m >= Modulus(size) then m - Modulus(size) else m
  }

  function Signed(bs: seq<Byte>): int {
    Wrap(Unsigned(bs), |bs|)
  }

  predicate InSignedRange(v: int, size: nat) {
    -Modulus(size) <= 2 * v < Modulus(size)
  }

  // The word and byte macros of the DYNAMIXEL SDK, on the 64-bit image of a negative tick.
  function LoWord(v: int): nat { v % 0x1_0000 }
  function HiWord(v: int): nat { (v / 0x1_0000) % 0x1_0000 }
  function LoByte(w: nat): Byte { w % 256 }
  function HiByte(w: nat): Byte { (w / 256) % 256 }

  /** The byte buffer that one sync-write entry carries for a goal tick. */
  function GoalBytes(tick: int): seq<Byte> {
    [LoByte(LoWord(tick)), HiByte(LoWord(tick)), LoByte(HiWord(tick)), HiByte(HiWord(tick))]
  }

  lemma MultipleGap(d: int, k: int)
    requires d > 0
    ensures k >= 1 ==> d * k >= d
    ensures k <= -1 ==> d * k <= -d
  {
  }

  lemma DivModUnique(x: int, d: int, q: int, r: int)
    requires 0 <= r < d && x == d * q + r
    ensures x / d == q && x % d == r
  {
    var k := x / d - q;
    assert r - x % d == d * k by { assert x == d * (x / d) + x % d; }
    MultipleGap(d, k);
  }

  /** Splitting off the low byte commutes with reduction. */
  lemma ModSplit(v: int, m: int)
    requires m > 0
    ensures v % (256 * m) == v % 256 + 256 * ((v / 256) % m)
  {
    var q := v / 256;
    assert q == m * (q / m) + q % m;
    assert 256 * (m * (q / m)) == (256 * m) * (q / m);
    DivModUnique(v, 256 * m, q / m, v % 256 + 256 * (q % m));
  }

  lemma {:induction false} UnsignedEncode(v: int, size: nat)
    ensures Unsigned(Encode(v, size)) == v % Modulus(size)
    decreases size
  {
    if size > 0 {
      UnsignedEncode(v / 256, size - 1);
      ModSplit(v, Modulus(size - 1));
      assert Encode(v, size)[1..] == Encode(v / 256, size - 1);
    }
  }

  lemma {:induction false} EncodeUnsigned(bs: seq<Byte>)
    ensures Encode(Unsigned(bs), |bs|) == bs
  {
    if bs != [] {
      EncodeUnsigned(bs[1..]);
      DivModUnique(Unsigned(bs), 256, Unsigned(bs[1..]), bs[0]);
      EncodeStep(Unsigned(bs), |bs| - 1);
    }
  }

  /** Two integers leave the same bytes exactly when they are congruent. */
  lemma EncodeCongruent(v: int, w: int, size: nat)
    ensures Encode(v, size) == Encode(w, size) <==> v % Modulus(size) == w % Modulus(size)
  {
    UnsignedEncode(v, size);
    UnsignedEncode(w, size);
    EncodeUnsigned(Encode(v, size));
    EncodeUnsigned(Encode(w, size));
  }

  lemma SmallMod(v: int, m: int)
    requires m > 0
    ensures 0 <= v < m ==> v % m == v
    ensures -m <= v < 0 ==> v % m == v + m
  {
    if 0 <= v < m { DivModUnique(v, m, 0, v); }
    if -m <= v < 0 { DivModUnique(v, m, -1, v + m); }
  }

  /** A signed value of `size` bytes is determined by its residue. */
  lemma SignedUnique(v: int, w: int, size: nat)
    requires size > 0 && InSignedRange(v, size) && InSignedRange(w, size)
    requires v % Modulus(size) == w % Modulus(size)
    ensures v == w
  {
    SmallMod(v, Modulus(size));
    SmallMod(w, Modulus(size));
  }

  lemma WrapSpec(v: int, size: nat)
    requires size > 0
    ensures InSignedRange(Wrap(v, size), size)
    ensures Wrap(v, size) % Modulus(size) == v % Modulus(size)
    ensures Wrap(v, size) == v <==> InSignedRange(v, size)
  {
    SmallMod(Wrap(v, size), Modulus(size));
    if InSignedRange(v, size) {
      SignedUnique(v, Wrap(v, size), size);
    }
  }

  /**
   Reading back a written register. The result is the one signed representative of the value
   written, and it is the value itself exactly when that fits.
   */
  lemma RegisterRoundTrip(v: int, size: nat)
    requires size > 0
    ensures InSignedRange(Signed(Encode(v, size)), size)
    ensures Signed(Encode(v, size)) % Modulus(size) == v % Modulus(size)
    ensures forall s :: InSignedRange(s, size) && s % Modulus(size) == v % Modulus(size) ==>
                          s == Signed(Encode(v, size))
    ensures Signed(Encode(v, size)) == v <==> InSignedRange(v, size)
  {
    UnsignedEncode(v, size);
    SmallMod(v % Modulus(size), Modulus(size));
    WrapSpec(v, size);
    var r := Signed(Encode(v, size));
    assert r == Wrap(v, size);
    forall s | InSignedRange(s, size) && s % Modulus(size) == v % Modulus(size)
      ensures s == r
    {
      SignedUnique(s, r, size);
    }
  }

  lemma Modulus4()
    ensures Modulus(1) == 0x100 && Modulus(2) == 0x1_0000 && Modulus(4) == 0x1_0000_0000
  {
    assert Modulus(3) == 256 * Modulus(2);
  }

  lemma LowWordBytes(v: int)
    ensures LoByte(LoWord(v)) == v % 256 && HiByte(LoWord(v)) == (v / 256) % 256
  {
    ModSplit(v, 256);
  }

  lemma HighWordIsQuotient(v: int)
    ensures v / 0x1_0000 == v / 256 / 256
  {
  }

  lemma HighWordBytes(v: int)
    ensures LoByte(HiWord(v)) == (v / 256 / 256) % 256 && HiByte(HiWord(v)) == (v / 256 / 256 / 256) % 256
  {
    HighWordIsQuotient(v);
    LowWordBytes(v / 0x1_0000);
  }

  lemma EncodeStep(v: int, size: nat)
    ensures Encode(v, size + 1) == [v % 256] + Encode(v / 256, size)
  {
  }

  lemma EncodeFour(v: int)
    ensures Encode(v, 4) == [v % 256, (v / 256) % 256, (v / 256 / 256) % 256, (v / 256 / 256 / 256) % 256]
  {
    hide Encode;
    EncodeStep(v, 3);
    EncodeStep(v / 256, 2);
    EncodeStep(v / 256 / 256, 1);
    EncodeStep(v / 256 / 256 / 256, 0);
    EncodeNone(v / 256 / 256 / 256 / 256);
  }

  lemma EncodeNone(v: int)
    ensures Encode(v, 0) == []
  {
  }

  /** The byte split of a goal position is the register encoding, so an int32 tick survives it. */
  lemma GoalBytesRoundTrip(tick: int)
    ensures GoalBytes(tick) == Encode(tick, 4)
    ensures InSignedRange(tick, 4) ==> Signed(GoalBytes(tick)) == tick
  {
    hide Encode, LoWord, HiWord, LoByte, HiByte, Signed, InSignedRange;
    LowWordBytes(tick);
    HighWordBytes(tick);
    EncodeFour(tick);
    RegisterRoundTrip(tick, 4);
  }
}
