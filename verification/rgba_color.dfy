/**
 * The colour value of include/cdv/core/rgba_color.hpp: red, green, blue and
 * alpha bytes packed into one unsigned 32-bit word, red in the top byte.
 * The bitwise operations of the source are written as arithmetic on the
 * word: a mask and shift picks a byte by division and remainder, and the
 * bitwise or of fields that do not overlap is their sum.
 */
module RgbaColor {
  import opened Wrappers

  const Word: int := 0x1_0000_0000

  type Uint32 = v: int | 0 <= v < Word
  type Byte = b: int | 0 <= b < 0x100

  /** is_in_range: a channel given as a double must lie in [0, 1]. */
  predicate InUnitRange(x: real)
  {
    0.0 <= x <= 1.0
  }

  /** The byte of a channel in [0, 1]: the truncation of x * 255 (a cast of a non-negative double). */
  function ToByte(x: real): (b: Byte)
    requires InUnitRange(x)
    ensures b as real <= x * 255.0 < b as real + 1.0
    ensures x == 1.0 ==> b == 0xff
  {
    var t := (x * 255.0).Floor;
    assert t <= 255 by {
      assert t as real <= x * 255.0 <= 255.0;
    }
    t
  }

  /** The word with the four bytes at bits 31-24, 23-16, 15-8 and 7-0. */
  function Pack(r: Byte, g: Byte, b: Byte, a: Byte): Uint32
  {
    r * 0x100_0000 + g * 0x1_0000 + b * 0x100 + a
  }

  /** The red byte: the word masked by 0xff000000 and shifted right by 24. */
  function Red(v: Uint32): Byte { v / 0x100_0000 }

  /** The green byte: the word masked by 0x00ff0000 and shifted right by 16. */
  function Green(v: Uint32): Byte { (v / 0x1_0000) % 0x100 }

  /** The blue byte: the word masked by 0x0000ff00 and shifted right by 8. */
  function Blue(v: Uint32): Byte { (v / 0x100) % 0x100 }

  /** The alpha byte: the word masked by 0x000000ff. */
  function AlphaByte(v: Uint32): Byte { v % 0x100 }

  /** Unpacking a packed word gives back the four bytes. */
  lemma UnpackPack(r: Byte, g: Byte, b: Byte, a: Byte)
    ensures Red(Pack(r, g, b, a)) == r && Green(Pack(r, g, b, a)) == g
    ensures Blue(Pack(r, g, b, a)) == b && AlphaByte(Pack(r, g, b, a)) == a
  {
    var v := Pack(r, g, b, a);
    assert v / 0x100 == r * 0x1_0000 + g * 0x100 + b;
    assert v / 0x1_0000 == r * 0x100 + g;
  }

  /** Packing the four bytes of a word gives back the word. */
  lemma PackUnpack(v: Uint32)
    ensures Pack(Red(v), Green(v), Blue(v), AlphaByte(v)) == v
  {
    var hi := v / 0x100;
    assert v == hi * 0x100 + AlphaByte(v);
    assert hi == (hi / 0x100) * 0x100 + Blue(v);
    assert hi / 0x100 == v / 0x1_0000;
    var top := v / 0x1_0000;
    assert top == Red(v) * 0x100 + Green(v);
  }

  /**
   * to_uint32 on four doubles: a domain error unless every channel is in
   * [0, 1]; otherwise each channel's truncated multiple of 255 in its byte.
   */
  function ToUint32(r: real, g: real, b: real, a: real): (res: Result<Uint32>)
    ensures res.Err? <==> !(InUnitRange(r) && InUnitRange(g) && InUnitRange(b) && InUnitRange(a))
    ensures res.Err? ==> res.error == DomainError
    ensures res.Ok? ==> Red(res.value) == ToByte(r) && Green(res.value) == ToByte(g)
    ensures res.Ok? ==> Blue(res.value) == ToByte(b) && AlphaByte(res.value) == ToByte(a)
  {
    if !(InUnitRange(r) && InUnitRange(g) && InUnitRange(b) && InUnitRange(a)) then Err(DomainError)
    else
      UnpackPack(ToByte(r), ToByte(g), ToByte(b), ToByte(a));
      Ok(Pack(ToByte(r), ToByte(g), ToByte(b), ToByte(a)))
  }

  /** rgba_color: the packed word; the default colour is opaque black. */
  datatype RgbaColor = RgbaColor(value: Uint32)

  const DefaultColor := RgbaColor(0x0000_00ff)

  /** cdv_blue, the library's own colour. */
  const CdvBlue := RgbaColor(0x1389_daff)

  /** The default colour is black (all colour bytes zero) and fully opaque. */
  lemma DefaultIsOpaqueBlack()
    ensures Red(DefaultColor.value) == 0 && Green(DefaultColor.value) == 0 && Blue(DefaultColor.value) == 0
    ensures AlphaByte(DefaultColor.value) == 0xff
  {
  }

  /** The constructor on three doubles: the four-channel one with alpha 1, so always opaque. */
  function FromRgb(r: real, g: real, b: real): (res: Result<RgbaColor>)
    ensures res.Err? <==> !(InUnitRange(r) && InUnitRange(g) && InUnitRange(b))
    ensures res.Err? ==> res.error == DomainError
    ensures res.Ok? ==> Red(res.value.value) == ToByte(r) && Green(res.value.value) == ToByte(g)
    ensures res.Ok? ==> Blue(res.value.value) == ToByte(b) && AlphaByte(res.value.value) == 0xff
  {
    var w := ToUint32(r, g, b, 1.0);
    if w.Err? then Err(w.error) else Ok(RgbaColor(w.value))
  }

  /** The constructor on four doubles. */
  function FromRgba(r: real, g: real, b: real, a: real): (res: Result<RgbaColor>)
    ensures res.Err? <==> !(InUnitRange(r) && InUnitRange(g) && InUnitRange(b) && InUnitRange(a))
    ensures res.Err? ==> res.error == DomainError
    ensures res.Ok? ==> Red(res.value.value) == ToByte(r) && Green(res.value.value) == ToByte(g)
    ensures res.Ok? ==> Blue(res.value.value) == ToByte(b) && AlphaByte(res.value.value) == ToByte(a)
  {
    var w := ToUint32(r, g, b, a);
    if w.Err? then Err(w.error) else Ok(RgbaColor(w.value))
  }

  /**
   * with_alpha: a domain error for an alpha outside [0, 1]; otherwise a copy
   * whose top 24 bits are kept and whose low byte is the truncated alpha.
   */
  function WithAlpha(c: RgbaColor, a: real): (res: Result<RgbaColor>)
    ensures res.Err? <==> !InUnitRange(a)
    ensures res.Err? ==> res.error == DomainError
    ensures res.Ok? ==> Red(res.value.value) == Red(c.value) && Green(res.value.value) == Green(c.value)
    ensures res.Ok? ==> Blue(res.value.value) == Blue(c.value) && AlphaByte(res.value.value) == ToByte(a)
  {
    if !InUnitRange(a) then Err(DomainError)
    else
      var v := (c.value / 0x100) * 0x100 + ToByte(a);
      PackUnpack(c.value);
      UnpackPack(Red(c.value), Green(c.value), Blue(c.value), ToByte(a));
      assert v == Pack(Red(c.value), Green(c.value), Blue(c.value), ToByte(a));
      Ok(RgbaColor(v))
  }

  /** Replacing the alpha of an opaque colour equals constructing it with that alpha. */
  lemma WithAlphaMatchesConstructor(r: real, g: real, b: real, a: real)
    requires InUnitRange(r) && InUnitRange(g) && InUnitRange(b) && InUnitRange(a)
    ensures FromRgb(r, g, b).Ok? && WithAlpha(FromRgb(r, g, b).value, a) == FromRgba(r, g, b, a)
  {
    var c := FromRgb(r, g, b).value;
    var d := FromRgba(r, g, b, a).value;
    var e := WithAlpha(c, a).value;
    PackUnpack(d.value);
    PackUnpack(e.value);
  }

  /** alpha: the low byte over 255, a value in [0, 1]. */
  function Alpha(c: RgbaColor): (x: real)
    ensures InUnitRange(x) && x * 255.0 == AlphaByte(c.value) as real
  {
    AlphaByte(c.value) as real / 255.0
  }

  /** as_doubles: the red, green and blue bytes over 255, then the alpha. */
  function AsDoubles(c: RgbaColor): (d: seq<real>)
    ensures |d| == 4 && d[3] == Alpha(c)
    ensures forall i :: 0 <= i < 4 ==> InUnitRange(d[i])
    ensures d[0] * 255.0 == Red(c.value) as real && d[1] * 255.0 == Green(c.value) as real
    ensures d[2] * 255.0 == Blue(c.value) as real
  {
    [Red(c.value) as real / 255.0, Green(c.value) as real / 255.0, Blue(c.value) as real / 255.0, Alpha(c)]
  }

  /** A channel whose multiple of 255 is a whole byte truncates to exactly that byte. */
  lemma ToByteExact(x: real, k: Byte)
    requires InUnitRange(x) && x * 255.0 == k as real
    ensures ToByte(x) == k
  {
  }

  /**
   * as_doubles inverts the constructor exactly: building a colour from its
   * doubles gives the same colour back.
   */
  lemma FromAsDoubles(c: RgbaColor)
    ensures var d := AsDoubles(c); FromRgba(d[0], d[1], d[2], d[3]) == Ok(c)
  {
    var d := AsDoubles(c);
    ToByteExact(d[0], Red(c.value));
    ToByteExact(d[1], Green(c.value));
    ToByteExact(d[2], Blue(c.value));
    ToByteExact(d[3], AlphaByte(c.value));
    var e := FromRgba(d[0], d[1], d[2], d[3]).value;
    PackUnpack(c.value);
    PackUnpack(e.value);
  }

  /**
   * The constructor inverts as_doubles up to truncation: each double read
   * back is at most the channel given and less than 1/255 below it.
   */
  lemma AsDoublesWithinTruncation(r: real, g: real, b: real, a: real)
    requires InUnitRange(r) && InUnitRange(g) && InUnitRange(b) && InUnitRange(a)
    ensures FromRgba(r, g, b, a).Ok?
    ensures var d := AsDoubles(FromRgba(r, g, b, a).value);
            && r - 1.0 / 255.0 < d[0] <= r && g - 1.0 / 255.0 < d[1] <= g
            && b - 1.0 / 255.0 < d[2] <= b && a - 1.0 / 255.0 < d[3] <= a
  {
  }

  /** operator== and operator!=: colours are equal exactly when their words are. */
  function Equal(c0: RgbaColor, c1: RgbaColor): (eq: bool)
    ensures eq <==> c0 == c1
    ensures !eq <==> Red(c0.value) != Red(c1.value) || Green(c0.value) != Green(c1.value)
                     || Blue(c0.value) != Blue(c1.value) || AlphaByte(c0.value) != AlphaByte(c1.value)
  {
    PackUnpack(c0.value);
    PackUnpack(c1.value);
    c0.value == c1.value
  }

  /**
   * char_to_uint32: the single-character colour codes '0' and 'k' (black),
   * '1' and 'w' (white), and the primaries and secondaries 'r', 'g', 'b',
   * 'y', 'm', 'c', all opaque; any other character is an invalid argument.
   */
  function CharToUint32(ch: char): (res: Result<Uint32>)
    ensures res.Err? <==> !(ch == '0' || ch == 'k' || ch == '1' || ch == 'w' || ch == 'r'
                            || ch == 'g' || ch == 'b' || ch == 'y' || ch == 'm' || ch == 'c')
    ensures res.Err? ==> res.error == InvalidArgument
    ensures res.Ok? ==> AlphaByte(res.value) == 0xff
    ensures res.Ok? ==> (Red(res.value) == 0xff <==> ch == '1' || ch == 'w' || ch == 'r' || ch == 'y' || ch == 'm')
    ensures res.Ok? ==> (Green(res.value) == 0xff <==> ch == '1' || ch == 'w' || ch == 'g' || ch == 'y' || ch == 'c')
    ensures res.Ok? ==> (Blue(res.value) == 0xff <==> ch == '1' || ch == 'w' || ch == 'b' || ch == 'm' || ch == 'c')
    ensures res.Ok? ==> Red(res.value) in {0, 0xff} && Green(res.value) in {0, 0xff} && Blue(res.value) in {0, 0xff}
  {
    match ch
    case '0' => Ok(0x0000_00ff)
    case 'k' => Ok(0x0000_00ff)
    case '1' => Ok(0xffff_ffff)
    case 'w' => Ok(0xffff_ffff)
    case 'r' => Ok(0xff00_00ff)
    case 'g' => Ok(0x00ff_00ff)
    case 'b' => Ok(0x0000_ffff)
    case 'y' => Ok(0xffff_00ff)
    case 'm' => Ok(0xff00_ffff)
    case 'c' => Ok(0x00ff_ffff)
    case _ => Err(InvalidArgument)
  }

  /** The floating-point constructors pack the truncated channels, alpha 1 standing in when it is not given. */
  lemma ConstructorsPack(r: real, g: real, b: real, a: real)
    requires InUnitRange(r) && InUnitRange(g) && InUnitRange(b) && InUnitRange(a)
    ensures FromRgba(r, g, b, a) == Ok(RgbaColor(Pack(ToByte(r), ToByte(g), ToByte(b), ToByte(a))))
    ensures FromRgb(r, g, b) == Ok(RgbaColor(Pack(ToByte(r), ToByte(g), ToByte(b), 0xff)))
  {
    PackUnpack(FromRgba(r, g, b, a).value.value);
    PackUnpack(FromRgb(r, g, b).value.value);
  }

  /** White from the floating-point constructors: every byte 0xff. */
  lemma WhiteExample(one: real)
    requires one == 1.0
    ensures FromRgb(one, one, one) == Ok(RgbaColor(0xffff_ffff))
    ensures FromRgba(one, one, one, one) == Ok(RgbaColor(0xffff_ffff))
  {
    assert ToByte(one) == 0xff;
    ConstructorsPack(one, one, one, one);
  }

  /** Black from the three-argument constructor is opaque. */
  lemma OpaqueBlackExample(zero: real)
    requires zero == 0.0
    ensures FromRgb(zero, zero, zero) == Ok(RgbaColor(0x0000_00ff))
  {
    ToByteExact(zero, 0);
    ConstructorsPack(zero, zero, zero, 1.0);
  }

  /** Black with alpha 0 is the zero word. */
  lemma TransparentBlackExample(zero: real)
    requires zero == 0.0
    ensures FromRgba(zero, zero, zero, zero) == Ok(RgbaColor(0x0000_0000))
  {
    var z := ToByte(zero);
    assert Pack(z, z, z, z) == 0 by {
      ToByteExact(zero, 0);
    }
    ConstructorsPack(zero, zero, zero, zero);
  }

  /** Orange at half green: (1, 0.5, 0) packs to 0xff7f00ff, and with alpha 0.25 to 0xff7f003f. */
  lemma OrangeExample(r: real, g: real, b: real, a: real)
    requires r == 1.0 && g == 0.5 && b == 0.0 && a == 0.25
    ensures FromRgb(r, g, b) == Ok(RgbaColor(0xff7f_00ff))
    ensures FromRgba(r, g, b, a) == Ok(RgbaColor(0xff7f_003f))
  {
    assert ToByte(r) == 0xff && ToByte(b) == 0;
    assert ToByte(g) == 127 by {
      assert 127.0 <= g * 255.0 < 128.0;
    }
    assert ToByte(a) == 63 by {
      assert 63.0 <= a * 255.0 < 64.0;
    }
    ConstructorsPack(r, g, b, a);
  }

  /** Any channel below 0 or above 1 is a domain error. */
  lemma OutOfRangeExamples()
    ensures FromRgb(-0.1, 0.1, 0.1) == Err(DomainError) && FromRgb(0.1, 1.1, 0.1) == Err(DomainError)
    ensures FromRgba(0.1, 0.1, 0.1, -0.1) == Err(DomainError) && FromRgba(0.1, 0.1, 0.1, 1.1) == Err(DomainError)
    ensures WithAlpha(RgbaColor(0x0000_00ff), 1.5) == Err(DomainError)
  {
  }
}
