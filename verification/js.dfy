/**
  The slice of ECMAScript number semantics the request handlers rely on.
  Every number they compute starts life as the result of `parseInt`, which is
  either an integer or NaN, so a Number here is exactly one of those two.
  The conversions follow ECMA-262 section 7.1.6 (ToInt32) and section 7.1.7
  (ToUint32); the shift and bitwise operators follow section 13.9 (bitwise
  shift operators) and section 13.12 (binary bitwise operators).
 */
module Js {
  import opened Bits

  datatype Number = NaN | Int(v: int)

  const TwoTo32: int := 0x1_0000_0000
  const TwoTo31: int := 0x8000_0000

  /** Math.max(x, y): NaN as soon as either argument is NaN. */
  function Max(x: Number, y: Number): (r: Number)
    ensures r.NaN? <==> x.NaN? || y.NaN?
    ensures r.Int? ==> r.v >= x.v && r.v >= y.v && (r.v == x.v || r.v == y.v)
  {
    if x.NaN? || y.NaN? then NaN
    else if x.v >= y.v then x
    else y
  }

  /** Math.min(x, y): NaN as soon as either argument is NaN. */
  function Min(x: Number, y: Number): (r: Number)
    ensures r.NaN? <==> x.NaN? || y.NaN?
    ensures r.Int? ==> r.v <= x.v && r.v <= y.v && (r.v == x.v || r.v == y.v)
  {
    if x.NaN? || y.NaN? then NaN
    else if x.v <= y.v then x
    else y
  }

  /** The relational test `x > n`: every comparison with NaN is false. */
  predicate Above(x: Number, n: int)
  {
    x.Int? && x.v > n
  }

  /** ToUint32: the residue modulo 2^32 in [0, 2^32); NaN becomes 0. `x >>> 0` is exactly this. */
  function ToUint32(x: Number): (r: nat)
    ensures r < TwoTo32
    ensures x.NaN? ==> r == 0
    ensures x.Int? && 0 <= x.v < TwoTo32 ==> r == x.v
    ensures x.Int? ==> (x.v - r) % TwoTo32 == 0
  {
    if x.NaN? then 0 else x.v % TwoTo32
  }

  /** ToInt32: the residue modulo 2^32 in [-2^31, 2^31); NaN becomes 0. */
  function ToInt32(x: Number): (r: int)
    ensures -TwoTo31 <= r < TwoTo31
    ensures ToUint32(Int(r)) == ToUint32(x)
  {
    var u := ToUint32(x);
    if u >= TwoTo31 then u - TwoTo32 else u
  }

  /** `x << k`: the 32-bit pattern of x moved k places up, bits above 31 lost, read as int32. */
  function ShiftLeft(x: Number, k: nat): (r: int)
    requires k < 32
    ensures -TwoTo31 <= r < TwoTo31
    ensures ToUint32(x) * Pow2(k) < TwoTo31 ==> r == ToUint32(x) * Pow2(k)
  {
    ToInt32(Int(ToUint32(x) * Pow2(k)))
  }

  /** The 32-bit pattern of `x << k` is that of x times 2^k, reduced modulo 2^32. */
  lemma ShiftLeftPattern(x: Number, k: nat)
    requires k < 32
    ensures ToUint32(Int(ShiftLeft(x, k))) == (ToUint32(x) * Pow2(k)) % TwoTo32
  {
  }

  /** `x >> k`: sign-propagating shift of the int32 value of x, i.e. division rounding down. */
  function ShiftRight(x: Number, k: nat): (r: int)
    requires k < 32
    ensures -TwoTo31 <= r < TwoTo31
    ensures r * Pow2(k) <= ToInt32(x) < (r + 1) * Pow2(k)
  {
    FloorBounds(ToInt32(x), Pow2(k));
    ToInt32(x) / Pow2(k)
  }

  /** `x | y` on the two 32-bit patterns, read as int32. */
  function BitOr(x: Number, y: Number): (r: int)
    ensures -TwoTo31 <= r < TwoTo31
  {
    ToInt32(Int(Or(ToUint32(x), ToUint32(y))))
  }

  /** Bit i of `x | y` is set iff bit i is set in x or in y. */
  lemma BitOrDigit(x: Number, y: Number, i: nat)
    requires i < 32
    ensures Digit(ToUint32(Int(BitOr(x, y))), i) == 1 <==> Digit(ToUint32(x), i) == 1 || Digit(ToUint32(y), i) == 1
  {
    BitOrValue(x, y);
    OrDigit(ToUint32(x), ToUint32(y), i);
  }

  /** `x & y` on the two 32-bit patterns, read as int32. */
  function BitAnd(x: Number, y: Number): (r: int)
    ensures -TwoTo31 <= r < TwoTo31
  {
    ToInt32(Int(And(ToUint32(x), ToUint32(y))))
  }

  /** Bit i of `x & y` is set iff bit i is set in both x and y. */
  lemma BitAndDigit(x: Number, y: Number, i: nat)
    requires i < 32
    ensures Digit(ToUint32(Int(BitAnd(x, y))), i) == 1 <==> Digit(ToUint32(x), i) == 1 && Digit(ToUint32(y), i) == 1
  {
    var u, w := ToUint32(x), ToUint32(y);
    AndAtMost(u, w);
    assert ToUint32(Int(BitAnd(x, y))) == And(u, w);
    AndDigit(u, w, i);
  }

  /** On values already in the uint32 range, `|` is the digit-wise Or of the values themselves. */
  lemma BitOrValue(x: Number, y: Number)
    ensures ToUint32(Int(BitOr(x, y))) == Or(ToUint32(x), ToUint32(y))
  {
    Pow2Constants();
    OrBelow(ToUint32(x), ToUint32(y), 32);
  }

  /** `x & 0xFF` keeps the low eight bits of x: its value is the residue modulo 256. */
  lemma {:induction false} MaskLowByte(x: Number)
    ensures BitAnd(x, Int(0xFF)) == ToUint32(x) % 256
  {
    var u := ToUint32(x);
    Pow2Constants();
    AndLowMask(u, 8);
  }
}
