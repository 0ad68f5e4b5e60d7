/**
  The colour codec: four 8-bit channels packed into one unsigned 32-bit value,
  red in bits 31-24, green in 23-16, blue in 15-8 and alpha in 7-0.
  Packing is written with the JavaScript operators the admin colour command
  uses, unpacking with the ones the pixel route uses.
 */
module Color {
  import opened Bits
  import opened Js

  type Byte = b: int | 0 <= b < 256

  datatype Rgba = Rgba(red: Byte, green: Byte, blue: Byte, alpha: Byte)

  /** DEFAULT_COLOR: fully transparent black. */
  const DefaultColor: Rgba := Rgba(0, 0, 0, 0)

  /** The weighted sum a packed colour stands for. */
  function Weigh(red: int, green: int, blue: int, alpha: int): int
  {
    red * 0x100_0000 + green * 0x1_0000 + blue * 0x100 + alpha
  }

  /** `(color >> shift) & 0xFF`: the byte of the 32-bit pattern that starts at bit `shift`. */
  function Channel(color: Number, shift: nat): (c: Byte)
    requires shift == 0 || shift == 8 || shift == 16 || shift == 24
    ensures c == (ToUint32(color) / Pow2(shift)) % 256
  {
    var s := ShiftRight(color, shift);
    MaskLowByte(Int(s));
    ChannelOfShift(color, shift);
    BitAnd(Int(s), Int(0xFF))
  }

  lemma ChannelOfShift(color: Number, shift: nat)
    requires shift == 0 || shift == 8 || shift == 16 || shift == 24
    ensures ToUint32(Int(ShiftRight(color, shift))) % 256 == (ToUint32(color) / Pow2(shift)) % 256
  {
    Pow2Constants();
    var u := ToUint32(color);
    var p := Pow2(shift);
    var k := if shift == 0 then TwoTo32 else if shift == 8 then 0x100_0000
             else if shift == 16 then 0x1_0000 else 0x100;
    assert k * p == TwoTo32 && k % 256 == 0;
    var s := ShiftRight(color, shift);
    assert s == ToInt32(color) / p;
    if u >= TwoTo31 {
      assert ToInt32(color) == u - k * p;
      ModUnique(u - k * p, p, u / p - k, u % p);
      assert s == u / p - k;
      ModUnique(s, 256, s / 256, s % 256);
      ModUnique(u / p, 256, s / 256 + k / 256, s % 256);
    } else {
      assert ToInt32(color) == u;
    }
    LowByteOfInt32(s);
  }

  /** Reducing modulo 2^32 keeps the low byte. */
  lemma LowByteOfInt32(s: int)
    ensures ToUint32(Int(s)) % 256 == s % 256
  {
    var w := ToUint32(Int(s));
    var m := (s - w) / TwoTo32;
    assert s == w + TwoTo32 * m;
    ModUnique(s, 256, w / 256 + 0x100_0000 * m, w % 256);
  }

  /** Every value below 2^32 is the weighted sum of its four bytes. */
  lemma Bytes(color: nat)
    requires color < TwoTo32
    ensures Weigh(color / 0x100_0000, (color / 0x1_0000) % 256, (color / 0x100) % 256, color % 256) == color
    ensures color / 0x100_0000 < 256
  {
    var q1 := color / 256;
    var q2 := q1 / 256;
    var q3 := q2 / 256;
    DivDiv(color, 256, 256);
    DivDiv(color, 0x1_0000, 256);
    assert color / 0x1_0000 == q2;
    assert color / 0x100_0000 == q3;
    assert color == 256 * q1 + color % 256;
    assert q1 == 256 * q2 + q1 % 256;
    assert q2 == 256 * q3 + q2 % 256;
  }

  /** Unpacking (the four channel extractions of the pixel route): weighing the channels back gives the colour. */
  function Unpack(color: nat): (c: Rgba)
    requires color < TwoTo32
    ensures Weigh(c.red, c.green, c.blue, c.alpha) == color
  {
    Pow2Constants();
    Bytes(color);
    assert ToUint32(Int(color)) == color;
    var red := Channel(Int(color), 24);
    var green := Channel(Int(color), 16);
    var blue := Channel(Int(color), 8);
    var alpha := Channel(Int(color), 0);
    var q := color / 0x100_0000;
    assert red == q % 256;
    assert q % 256 == q by { ModUnique(q, 256, 0, q); }
    assert green == (color / 0x1_0000) % 256;
    assert blue == (color / 0x100) % 256;
    assert alpha == color % 256;
    Rgba(red, green, blue, alpha)
  }

  /** A channel value as the colour command computes it: an integer in [0,255] or NaN. */
  predicate Clamped(x: Number)
  {
    x.NaN? || 0 <= x.v < 256
  }

  /** The bits a clamped channel contributes: ToInt32 turns NaN into 0. */
  function Lane(x: Number): (b: Byte)
    requires Clamped(x)
  {
    if x.NaN? then 0 else x.v
  }

  /**
    `((red << 24) | (green << 16) | (blue << 8) | alpha) >>> 0` on channels
    already clamped to [0,255] (or NaN, which contributes zero bits).
   */
  function Pack(red: Number, green: Number, blue: Number, alpha: Number): (color: nat)
    requires Clamped(red) && Clamped(green) && Clamped(blue) && Clamped(alpha)
    ensures color < TwoTo32
    ensures color == Weigh(Lane(red), Lane(green), Lane(blue), Lane(alpha))
  {
    var word := BitOr(Int(BitOr(Int(BitOr(Int(ShiftLeft(red, 24)), Int(ShiftLeft(green, 16)))),
                                Int(ShiftLeft(blue, 8)))),
                      alpha);
    PackValue(red, green, blue, alpha);
    ToUint32(Int(word))
  }

  lemma PackValue(red: Number, green: Number, blue: Number, alpha: Number)
    requires Clamped(red) && Clamped(green) && Clamped(blue) && Clamped(alpha)
    ensures ToUint32(Int(BitOr(Int(BitOr(Int(BitOr(Int(ShiftLeft(red, 24)), Int(ShiftLeft(green, 16)))),
                                         Int(ShiftLeft(blue, 8)))),
                               alpha)))
            == Weigh(Lane(red), Lane(green), Lane(blue), Lane(alpha))
  {
    var upper := Int(BitOr(Int(BitOr(Int(ShiftLeft(red, 24)), Int(ShiftLeft(green, 16)))), Int(ShiftLeft(blue, 8))));
    var hi := Lane(red) * 0x1_0000 + Lane(green) * 0x100 + Lane(blue);
    PackUpper(red, green, blue);
    OrLow(upper, alpha, hi);
  }

  /** OR-ing a clamped channel into a word whose low byte is clear fills that byte. */
  lemma OrLow(upper: Number, alpha: Number, hi: int)
    requires Clamped(alpha) && 0 <= hi && ToUint32(upper) == hi * 0x100
    ensures ToUint32(Int(BitOr(upper, alpha))) == hi * 0x100 + Lane(alpha)
  {
    OrStep(upper, alpha, hi, Lane(alpha), 8, 0x100);
  }

  /** The red, green and blue lanes of the packed word. */
  lemma PackUpper(red: Number, green: Number, blue: Number)
    requires Clamped(red) && Clamped(green) && Clamped(blue)
    ensures ToUint32(Int(BitOr(Int(BitOr(Int(ShiftLeft(red, 24)), Int(ShiftLeft(green, 16)))), Int(ShiftLeft(blue, 8)))))
            == (Lane(red) * 0x1_0000 + Lane(green) * 0x100 + Lane(blue)) * 0x100
  {
    var top := Int(BitOr(Int(ShiftLeft(red, 24)), Int(ShiftLeft(green, 16))));
    PackTop(red, green);
    OrMiddle(top, blue, Lane(red) * 0x100 + Lane(green));
  }

  /** OR-ing a clamped channel shifted by 8 into a word whose low 16 bits are clear fills bits 15-8. */
  lemma OrMiddle(top: Number, blue: Number, hi: int)
    requires Clamped(blue) && 0 <= hi && ToUint32(top) == hi * 0x1_0000
    ensures ToUint32(Int(BitOr(top, Int(ShiftLeft(blue, 8))))) == hi * 0x1_0000 + Lane(blue) * 0x100
  {
    ShiftedLane(blue, 8, 0x100);
    OrStep(top, Int(ShiftLeft(blue, 8)), hi, Lane(blue) * 0x100, 16, 0x1_0000);
  }

  /** The red and green lanes of the packed word. */
  lemma PackTop(red: Number, green: Number)
    requires Clamped(red) && Clamped(green)
    ensures ToUint32(Int(BitOr(Int(ShiftLeft(red, 24)), Int(ShiftLeft(green, 16)))))
            == (Lane(red) * 0x100 + Lane(green)) * 0x1_0000
  {
    ShiftedLane(red, 24, 0x100_0000);
    ShiftedLane(green, 16, 0x1_0000);
    OrStep(Int(ShiftLeft(red, 24)), Int(ShiftLeft(green, 16)), Lane(red), Lane(green) * 0x1_0000, 24, 0x100_0000);
  }

  /** A clamped channel shifted left by 24, 16 or 8 places sits unchanged in its byte. */
  lemma ShiftedLane(x: Number, k: nat, unit: nat)
    requires Clamped(x)
    requires (k == 8 && unit == 0x100) || (k == 16 && unit == 0x1_0000) || (k == 24 && unit == 0x100_0000)
    ensures ToUint32(Int(ShiftLeft(x, k))) == Lane(x) * unit
  {
    Pow2Constants();
    var u := ToUint32(x);
    assert u == Lane(x);
    if k == 8 {
      assert u * Pow2(k) == u * 0x100;
    } else if k == 16 {
      assert u * Pow2(k) == u * 0x1_0000;
    } else {
      assert u * Pow2(k) == u * 0x100_0000;
    }
  }

  /** `x | y` where y fits in the low k bits that x leaves clear is x + y. */
  lemma OrStep(x: Number, y: Number, hi: nat, lo: nat, k: nat, unit: nat)
    requires (k == 8 && unit == 0x100) || (k == 16 && unit == 0x1_0000) || (k == 24 && unit == 0x100_0000)
    requires lo < unit && ToUint32(x) == hi * unit && ToUint32(y) == lo
    ensures ToUint32(Int(BitOr(x, y))) == hi * unit + lo
  {
    Pow2Constants();
    BitOrValue(x, y);
    OrDisjoint(hi, lo, k);
  }

  /** Unpacking a packed colour returns exactly the four channels. */
  lemma UnpackPack(red: Byte, green: Byte, blue: Byte, alpha: Byte)
    ensures Unpack(Pack(Int(red), Int(green), Int(blue), Int(alpha))) == Rgba(red, green, blue, alpha)
  {
    var c := Unpack(Pack(Int(red), Int(green), Int(blue), Int(alpha)));
    WeighInjective(c.red, c.green, c.blue, c.alpha, red, green, blue, alpha);
  }

  /** Packing the unpacked channels of a colour returns that colour. */
  lemma PackUnpack(color: nat)
    requires color < TwoTo32
    ensures var c := Unpack(color); Pack(Int(c.red), Int(c.green), Int(c.blue), Int(c.alpha)) == color
  {
  }

  /** Distinct channel quadruples weigh differently. */
  lemma WeighInjective(r: Byte, g: Byte, b: Byte, a: Byte, r': Byte, g': Byte, b': Byte, a': Byte)
    requires Weigh(r, g, b, a) == Weigh(r', g', b', a')
    ensures r == r' && g == g' && b == b' && a == a'
  {
  }

  /** The pixel route's choice of colour: the unpacked channels when the packed value is positive, else DEFAULT_COLOR. */
  function PixelColor(color: nat): (c: Rgba)
    requires color < TwoTo32
    ensures c == Unpack(color)
  {
    if color > 0 then Unpack(color) else WeighZero(Unpack(color)); DefaultColor
  }

  /** Only DEFAULT_COLOR weighs zero. */
  lemma WeighZero(c: Rgba)
    requires Weigh(c.red, c.green, c.blue, c.alpha) == 0
    ensures c == DefaultColor
  {
  }
}
