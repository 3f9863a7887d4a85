/**
 * write_color: turns a pixel's accumulated colour (the sum of
 * samples_per_pixel radiance samples) into one text line "r g b\n" of
 * 8-bit channel values. Each channel is scaled by 1/samples_per_pixel,
 * gamma-corrected with a square root (gamma 2), clamped to [0, 1],
 * multiplied by 255 and truncated to an int.
 */
module Color {
  import opened MathUtils
  import opened Vectors
  import W = Wrappers

  /** One channel: static_cast<int>(255 * clamp(sqrt(scale * value), 0, 1)) with scale = 1 / samples_per_pixel. */
  function Channel(value: real, samplesPerPixel: int, sqrt: real -> real): (b: int)
    requires IsSqrt(sqrt) && 0 < samplesPerPixel && 0.0 <= value
    ensures 0 <= b <= 255
  {
    var scale := Recip(samplesPerPixel as real);
    PositiveFactorKeepsSign(samplesPerPixel as real, scale);
    ProductNonNegative(scale, value);
    var gamma := sqrt(Mul(scale, value));
    (255.0 * Clamp(gamma, 0.0, 1.0)).Floor
  }

  /** The three channels, in r, g, b order. */
  datatype Pixel = Pixel(r: int, g: int, b: int)

  /** A colour whose channels are all non-negative, as accumulated radiance is. */
  predicate NonNegativeColor(c: Vec3) {
    0.0 <= c.x && 0.0 <= c.y && 0.0 <= c.z
  }

  function ToPixel(c: Vec3, samplesPerPixel: int, sqrt: real -> real): (p: Pixel)
    requires IsSqrt(sqrt) && 0 < samplesPerPixel && NonNegativeColor(c)
    ensures 0 <= p.r <= 255 && 0 <= p.g <= 255 && 0 <= p.b <= 255
  {
    Pixel(Channel(c.x, samplesPerPixel, sqrt), Channel(c.y, samplesPerPixel, sqrt), Channel(c.z, samplesPerPixel, sqrt))
  }

  /** The text write_color sends to the stream for one pixel. */
  function WriteColor(c: Vec3, samplesPerPixel: int, sqrt: real -> real): (line: string)
    requires IsSqrt(sqrt) && 0 < samplesPerPixel && NonNegativeColor(c)
    ensures ParseLine(line) == W.Some(ToPixel(c, samplesPerPixel, sqrt))
  {
    var p := ToPixel(c, samplesPerPixel, sqrt);
    LineRoundTrip(p);
    Line(p)
  }

  predicate NonNegativePixel(p: Pixel) {
    0 <= p.r && 0 <= p.g && 0 <= p.b
  }

  /** "r g b\n": the channels in decimal, separated by one space, ended by a newline. */
  function Line(p: Pixel): (line: string)
    requires NonNegativePixel(p)
    ensures 0 < |line| && line[|line| - 1] == '\n'
    ensures forall i :: 0 <= i < |line| - 1 ==> IsDigit(line[i]) || line[i] == ' '
    ensures |line| - 1 == |Decimal(p.r)| + |Decimal(p.g)| + |Decimal(p.b)| + 2
  {
    Decimal(p.r) + " " + Decimal(p.g) + " " + Decimal(p.b) + "\n"
  }

  // ---------------------------------------------------------------------
  // Decimal text, and reading a line back
  // ---------------------------------------------------------------------

  predicate IsDigit(c: char) {
    '0' <= c <= '9'
  }

  predicate IsNumeral(s: string) {
    0 < |s| && forall i :: 0 <= i < |s| ==> IsDigit(s[i])
  }

  function DigitChar(d: nat): (c: char)
    requires d < 10
    ensures IsDigit(c) && DigitValue(c) == d
  {
    ('0' as int + d) as char
  }

  function DigitValue(c: char): nat
    requires IsDigit(c)
  {
    c as int - '0' as int
  }

  /** The decimal numeral of n, as operator<< writes an int, most significant digit first. */
  function Decimal(n: nat): (s: string)
    ensures IsNumeral(s)
    decreases n
  {
    if n < 10 then [DigitChar(n)] else Decimal(n / 10) + [DigitChar(n % 10)]
  }

  /** The value of a decimal numeral. */
  function ParseDecimal(s: string): nat
    requires forall i :: 0 <= i < |s| ==> IsDigit(s[i])
    decreases |s|
  {
    if s == [] then 0 else 10 * ParseDecimal(s[..|s| - 1]) + DigitValue(s[|s| - 1])
  }

  /** Reading back the numeral of n gives n. */
  lemma {:induction false} DecimalRoundTrip(n: nat)
    ensures ParseDecimal(Decimal(n)) == n
    decreases n
  {
    if 10 <= n {
      DecimalRoundTrip(n / 10);
      var s := Decimal(n);
      assert s[..|s| - 1] == Decimal(n / 10);
    }
  }

  /** The pieces of s between occurrences of sep. */
  function Split(s: string, sep: char): (parts: seq<string>)
    ensures 0 < |parts|
    decreases |s|
  {
    if s == [] then [[]]
    else
      var rest := Split(s[1..], sep);
      if s[0] == sep then [[]] + rest else [[s[0]] + rest[0]] + rest[1..]
  }

  /** A piece free of the separator splits off whole. */
  lemma {:induction false} SplitPiece(a: string, sep: char, b: string)
    requires sep !in a
    ensures Split(a + [sep] + b, sep) == [a] + Split(b, sep)
    ensures Split(a, sep) == [a]
    decreases |a|
  {
    if a != [] {
      SplitPiece(a[1..], sep, b);
      assert (a + [sep] + b)[1..] == a[1..] + [sep] + b;
      assert a[0] != sep && (a + [sep] + b)[0] == a[0];
      assert [a[0]] + a[1..] == a;
    } else {
      assert (a + [sep] + b)[1..] == b;
    }
  }

  /** Reads a line "r g b\n" of three decimal numerals. */
  function ParseLine(line: string): W.Option<Pixel> {
    if |line| == 0 || line[|line| - 1] != '\n' then W.None
    else
      var fields := Split(line[..|line| - 1], ' ');
      if |fields| == 3 && IsNumeral(fields[0]) && IsNumeral(fields[1]) && IsNumeral(fields[2]) then
        W.Some(Pixel(ParseDecimal(fields[0]), ParseDecimal(fields[1]), ParseDecimal(fields[2])))
      else
        W.None
  }

  /** Three numerals joined by single spaces split back into the three. */
  lemma SplitFields(r: string, g: string, b: string)
    requires IsNumeral(r) && IsNumeral(g) && IsNumeral(b)
    ensures Split(r + " " + g + " " + b, ' ') == [r, g, b]
  {
    assert ' ' !in r && ' ' !in g && ' ' !in b;
    assert r + " " + g + " " + b == r + [' '] + (g + [' '] + b);
    SplitPiece(r, ' ', g + [' '] + b);
    SplitPiece(g, ' ', b);
    SplitPiece(b, ' ', []);
  }

  /** Reading back the line written for a pixel gives the pixel. */
  lemma LineRoundTrip(p: Pixel)
    requires NonNegativePixel(p)
    ensures ParseLine(Line(p)) == W.Some(p)
  {
    var r, g, b := Decimal(p.r), Decimal(p.g), Decimal(p.b);
    var line := Line(p);
    assert line[..|line| - 1] == r + " " + g + " " + b;
    SplitFields(r, g, b);
    DecimalRoundTrip(p.r);
    DecimalRoundTrip(p.g);
    DecimalRoundTrip(p.b);
  }

  // ---------------------------------------------------------------------
  // Channel arithmetic
  // ---------------------------------------------------------------------

  /** A zero channel writes 0. */
  lemma ChannelOfZero(samplesPerPixel: int, sqrt: real -> real)
    requires IsSqrt(sqrt) && 0 < samplesPerPixel
    ensures Channel(0.0, samplesPerPixel, sqrt) == 0
  {
  }

  /** scale * value, where scale = 1 / samples_per_pixel, is value / samples_per_pixel. */
  lemma ScaledChannel(value: real, samplesPerPixel: int)
    requires 0 < samplesPerPixel && 0.0 <= value
    ensures var x := Mul(Recip(samplesPerPixel as real), value);
      0.0 <= x && Mul(samplesPerPixel as real, x) == value
      && (1.0 <= x <==> samplesPerPixel as real <= value)
  {
  }

  /**
   * A channel writes 255 exactly when its accumulated value is at least
   * samples_per_pixel (scale * value >= 1).
   */
  lemma ChannelSaturates(value: real, samplesPerPixel: int, sqrt: real -> real)
    requires IsSqrt(sqrt) && 0 < samplesPerPixel && 0.0 <= value
    ensures Channel(value, samplesPerPixel, sqrt) == 255 <==> samplesPerPixel as real <= value
  {
    ScaledChannel(value, samplesPerPixel);
    var x := Mul(Recip(samplesPerPixel as real), value);
    if x < 1.0 {
      SqrtBelowOne(sqrt, x);
    } else {
      SqrtUnitInterval(sqrt, x);
    }
  }

  /** More accumulated light never writes a smaller channel value. */
  lemma ChannelMonotone(v: real, w: real, samplesPerPixel: int, sqrt: real -> real)
    requires IsSqrt(sqrt) && 0 < samplesPerPixel && 0.0 <= v <= w
    ensures Channel(v, samplesPerPixel, sqrt) <= Channel(w, samplesPerPixel, sqrt)
  {
    var scale := Recip(samplesPerPixel as real);
    ScaledChannel(v, samplesPerPixel);
    ScaledChannel(w, samplesPerPixel);
    PositiveFactorKeepsSign(samplesPerPixel as real, scale);
    MultiplyMonotone(scale, v, w);
    SqrtMonotone(sqrt, Mul(scale, v), Mul(scale, w));
  }

  /**
   * A white sample (1, 1, 1) accumulated once but divided by four samples
   * writes 127 per channel, not 255: the channel is sqrt(1/4) = 0.5, and
   * 255 * 0.5 = 127.5 truncates to 127. Only an accumulated value of at
   * least samples_per_pixel saturates.
   */
  lemma ChannelOfOneOverFourSamples(sqrt: real -> real)
    requires IsSqrt(sqrt)
    ensures Channel(1.0, 4, sqrt) == 127
  {
    assert Recip(4.0) == 0.25;
    assert Mul(0.25, 1.0) == 0.25;
    SqrtOfSquare(sqrt, 0.5);
    assert Mul(0.5, 0.5) == 0.25;
  }
}
