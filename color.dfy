/**
 * Writing one pixel of the PPM image: averaging the samples, gamma
 * correction with gamma 2, quantisation to 0..255 and the `r g b` text line.
 */
module Color {
  import opened Wrappers
  import opened Vec3

  /** `f64::clamp` on ordinary values. */
  function Clamp(x: real, lo: real, hi: real): (r: real)
    requires lo <= hi
    ensures lo <= r <= hi
    ensures lo <= x <= hi ==> r == x
  {
    if x < lo then lo else if x > hi then hi else x
  }

  /** `(256.0 * c.clamp(0.0, 0.999)) as u32`: truncation of a non-negative value is its floor. */
  function Quantize(c: real): (q: int)
  {
    (256.0 * Clamp(c, 0.0, 0.999)).Floor
  }

  /** Every quantised channel is a byte, and it is the integer part of `256 c` inside the clamp range. */
  lemma QuantizeBounds(c: real)
    ensures 0 <= Quantize(c) <= 255
    ensures 0.0 <= c <= 0.999 ==> Quantize(c) as real <= 256.0 * c < Quantize(c) as real + 1.0
    ensures c <= 0.0 ==> Quantize(c) == 0
    ensures c >= 0.999 ==> Quantize(c) == 255
  {
  }

  /** Quantisation never reverses the order of two channel values. */
  lemma QuantizeMonotone(a: real, b: real)
    requires a <= b
    ensures Quantize(a) <= Quantize(b)
  {
    var x := 256.0 * Clamp(a, 0.0, 0.999);
    var y := 256.0 * Clamp(b, 0.0, 0.999);
    assert x <= y;
    assert x.Floor as real <= x;
  }

  /**
   * One output channel: the sample sum averaged over the samples, its square
   * root, quantised. A negative scaled value has a NaN root in f64, which
   * the clamp keeps and the cast turns into 0.
   */
  function Level(c: real, samples: nat, sqrt: real -> real): int
    requires samples > 0
  {
    var scaled := c / samples as real;
    if scaled < 0.0 then 0 else Quantize(sqrt(scaled))
  }

  lemma LevelBounds(c: real, samples: nat, sqrt: real -> real)
    requires samples > 0
    ensures 0 <= Level(c, samples, sqrt) <= 255
  {
    QuantizeBounds(sqrt(c / samples as real));
  }

  lemma SqrtMonotone(sqrt: real -> real, a: real, b: real)
    requires IsSqrt(sqrt) && 0.0 <= a <= b
    ensures sqrt(a) <= sqrt(b)
  {
    SquareOrder(sqrt(a), sqrt(b));
  }

  lemma SquareOrder(x: real, y: real)
    requires 0.0 <= x && 0.0 <= y && x * x <= y * y
    ensures x <= y
  {
    assert (y - x) * (y + x) == y * y - x * x;
    if x + y != 0.0 {
      assert y - x == (y * y - x * x) / (y + x);
    }
  }

  /** Brighter sums never give darker output. */
  lemma LevelMonotone(a: real, b: real, samples: nat, sqrt: real -> real)
    requires samples > 0 && IsSqrt(sqrt) && a <= b
    ensures Level(a, samples, sqrt) <= Level(b, samples, sqrt)
  {
    var n := samples as real;
    assert a / n <= b / n;
    if 0.0 <= a / n {
      SqrtMonotone(sqrt, a / n, b / n);
      QuantizeMonotone(sqrt(a / n), sqrt(b / n));
    } else {
      QuantizeBounds(sqrt(b / n));
    }
  }

  /** Multiplying by the reciprocal of the sample count is averaging. */
  lemma ScaleIsAverage(c: real, samples: nat)
    requires samples > 0
    ensures (1.0 / samples as real) * c == c / samples as real
  {
  }

  /** The decimal digit `d` as a character. */
  function DigitChar(d: nat): (ch: char)
    requires d < 10
    ensures '0' <= ch <= '9'
  {
    (48 + d) as char
  }

  /** The value of a decimal digit character. */
  function DigitValue(ch: char): (d: nat)
    requires '0' <= ch <= '9'
    ensures d < 10
  {
    ch as int - 48
  }

  /** `{}` formatting of an unsigned integer: its decimal digits, no sign and no leading zeros. */
  function Decimal(n: nat): (s: seq<char>)
    ensures |s| > 0 && forall i :: 0 <= i < |s| ==> '0' <= s[i] <= '9'
    decreases n
  {
    if n < 10 then [DigitChar(n)] else Decimal(n / 10) + [DigitChar(n % 10)]
  }

  /** Reading a string of decimal digits, most significant first. */
  function ParseDecimal(s: seq<char>): nat
    requires forall i :: 0 <= i < |s| ==> '0' <= s[i] <= '9'
  {
    if s == [] then 0 else ParseDecimal(s[..|s| - 1]) * 10 + DigitValue(s[|s| - 1])
  }

  /** Reading back a formatted number gives the number. */
  lemma {:induction false} DecimalRoundTrip(n: nat)
    ensures ParseDecimal(Decimal(n)) == n
    decreases n
  {
    var s := Decimal(n);
    if n < 10 {
      assert s[..0] == [];
    } else {
      DecimalRoundTrip(n / 10);
      assert s[..|s| - 1] == Decimal(n / 10);
    }
  }

  /** No leading zero: a formatted number starts with `0` only when it is 0. */
  lemma {:induction false} DecimalNoLeadingZero(n: nat)
    ensures Decimal(n)[0] == '0' <==> n == 0
    decreases n
  {
    if n >= 10 {
      DecimalNoLeadingZero(n / 10);
    }
  }

  /** The text line `write_color` emits for three channel levels. */
  function Line(r: nat, g: nat, b: nat): (line: seq<char>)
  {
    Decimal(r) + [' '] + Decimal(g) + [' '] + Decimal(b) + ['\n']
  }

  /**
   * The line splits back into its three numbers: the digits of `r`, a space,
   * the digits of `g`, a space, the digits of `b`, and a final newline.
   */
  lemma LineFields(r: nat, g: nat, b: nat)
    ensures var line := Line(r, g, b);
      var i, j := |Decimal(r)|, |Decimal(r)| + 1 + |Decimal(g)|;
      j + 1 < |line| - 1 && line[i] == ' ' && line[j] == ' ' && line[|line| - 1] == '\n'
      && ParseDecimal(line[..i]) == r && ParseDecimal(line[i + 1..j]) == g && ParseDecimal(line[j + 1..|line| - 1]) == b
  {
    Separated(Decimal(r), Decimal(g), Decimal(b));
    DecimalRoundTrip(r);
    DecimalRoundTrip(g);
    DecimalRoundTrip(b);
  }

  lemma Separated(x: seq<char>, y: seq<char>, z: seq<char>)
    requires |z| > 0
    ensures var line := x + [' '] + y + [' '] + z + ['\n'];
      var i, j := |x|, |x| + 1 + |y|;
      j + 1 < |line| - 1 && line[i] == ' ' && line[j] == ' ' && line[|line| - 1] == '\n'
      && line[..i] == x && line[i + 1..j] == y && line[j + 1..|line| - 1] == z
  {
    var line := x + [' '] + y + [' '] + z + ['\n'];
    var i, j := |x|, |x| + 1 + |y|;
    assert line[..i] == x;
    assert line[i + 1..j] == y;
    assert line[j + 1..|line| - 1] == z;
  }

  datatype IoError = IoError

  /** The output sink: the text accepted so far, and whether it refuses further writes. */
  class Writer {
    var contents: seq<char>
    var failing: bool

    constructor(failing: bool)
      ensures contents == [] && this.failing == failing
    {
      contents := [];
      this.failing := failing;
    }

    /** A write either appends all of `s` or fails and leaves the sink as it was. */
    method WriteAll(s: seq<char>) returns (res: Result<(), IoError>)
      modifies this
      ensures res.Ok? <==> !failing
      ensures res.Ok? ==> contents == old(contents) + s
      ensures res.Err? ==> contents == old(contents)
      ensures failing == old(failing)
    {
      if failing {
        return Err(IoError);
      }
      contents := contents + s;
      return Ok(());
    }
  }

  /**
   * `write_color`: the three channels are averaged and gamma corrected,
   * quantised, and written as one line; a write error is passed on.
   */
  method WriteColor(out: Writer, pixelColor: Vec3, samplesPerPixel: nat, sqrt: real -> real) returns (res: Result<(), IoError>)
    requires samplesPerPixel > 0
    modifies out
    ensures res.Ok? <==> !old(out.failing)
    ensures res.Ok? ==> out.contents == old(out.contents) + Line(
      Level(pixelColor.X(), samplesPerPixel, sqrt),
      Level(pixelColor.Y(), samplesPerPixel, sqrt),
      Level(pixelColor.Z(), samplesPerPixel, sqrt))
    ensures res.Err? ==> out.contents == old(out.contents)
  {
    var r := pixelColor.X();
    var g := pixelColor.Y();
    var b := pixelColor.Z();

    var scale := 1.0 / samplesPerPixel as real;
    r := scale * r;
    g := scale * g;
    b := scale * b;
    ScaleIsAverage(pixelColor.X(), samplesPerPixel);
    ScaleIsAverage(pixelColor.Y(), samplesPerPixel);
    ScaleIsAverage(pixelColor.Z(), samplesPerPixel);
    assert r == pixelColor.X() / samplesPerPixel as real;
    assert g == pixelColor.Y() / samplesPerPixel as real;
    assert b == pixelColor.Z() / samplesPerPixel as real;
    var rOut := if r < 0.0 then 0 else Quantize(sqrt(r));
    var gOut := if g < 0.0 then 0 else Quantize(sqrt(g));
    var bOut := if b < 0.0 then 0 else Quantize(sqrt(b));
    assert rOut == Level(pixelColor.X(), samplesPerPixel, sqrt);
    assert gOut == Level(pixelColor.Y(), samplesPerPixel, sqrt);
    assert bOut == Level(pixelColor.Z(), samplesPerPixel, sqrt);

    var written := out.WriteAll(Line(rOut, gOut, bOut));
    if written.Err? {
      return Err(written.error);
    }
    return Ok(());
  }
}
