/**
 * The band a sampler observes: its span from the zoom factor, the start
 * offset sent to the receiver, the centre, lower and upper frequencies, and
 * the name of the round-robin database file the results go to.
 *
 * Frequencies are in kHz. The span and the centre are whole kHz; the lower
 * and upper edges are whole multiples of half a kHz and are held in tenths
 * of a kHz, the unit in which the spectra log records them.
 */
module Geometry {
  import opened Wrappers
  import opened Text

  /** The receiver covers 0 to 30 MHz. */
  const FullSpan: nat := 30000

  /** Waterfall bins per line. */
  const Bins: nat := 1024

  /** The first zoom factor at which the power of two overflows a double. */
  const ZoomOverflow: nat := 1024

  function Pow2(n: nat): (p: nat)
    ensures p >= 1
  {
    if n == 0 then 1 else 2 * Pow2(n - 1)
  }

  /** Multiplying both sides of an inequality by a natural number keeps it. */
  lemma MulMono(a: int, b: int, d: nat)
    requires a <= b
    ensures a * d <= b * d
  {
    var k := b - a;
    assert b * d == a * d + k * d;
  }

  /** The quotient and remainder of a division put back together. */
  lemma DivMod(n: nat, d: nat)
    requires d > 0
    ensures n == (n / d) * d + n % d && 0 <= n % d < d
  {
  }

  /** The truncated quotient is the largest multiple count that fits. */
  lemma DivBounds(n: nat, d: nat)
    requires d > 0
    ensures 0 <= n / d && (n / d) * d <= n < (n / d + 1) * d
  {
    DivMod(n, d);
    assert (n / d + 1) * d == (n / d) * d + d;
  }

  /** The next multiple of `d` above `a * d` is still at most `b * d` when `a < b`. */
  lemma MulStep(a: int, b: int, d: nat)
    requires a < b
    ensures a * d + d <= b * d
  {
    MulMono(a + 1, b, d);
    assert (a + 1) * d == a * d + d;
  }

  /** A quotient is determined by any decomposition with a remainder below the divisor. */
  lemma DivUnique(n: nat, d: nat, q: nat, r: nat)
    requires 0 <= r < d && n == q * d + r
    ensures n / d == q
  {
    var q0 := n / d;
    DivMod(n, d);
    if q0 > q {
      MulStep(q, q0, d);
      assert false;
    } else if q0 < q {
      MulStep(q0, q, d);
      assert false;
    }
  }

  /** Halving a quotient, rounding down, is dividing by twice the divisor. */
  lemma DivHalf(n: nat, p: nat)
    requires p > 0
    ensures (n / p) / 2 == n / (2 * p)
  {
    var q := n / p;
    DivMod(n, p);
    DivMod(q, 2);
    var r := (q % 2) * p + n % p;
    MulMono(q % 2, 1, p);
    assert q * p == (q / 2) * (2 * p) + (q % 2) * p by {
      assert q == (q / 2) * 2 + q % 2;
      assert q * p == ((q / 2) * 2) * p + (q % 2) * p;
    }
    DivUnique(n, 2 * p, q / 2, r);
  }

  /**
   * The span in kHz: the full span divided by two to the zoom factor and
   * truncated for a positive zoom, the full span otherwise.
   */
  function Span(zoom: int): (span: nat)
    ensures zoom > 0 ==> span * Pow2(zoom) <= FullSpan < (span + 1) * Pow2(zoom)
    ensures zoom <= 0 ==> span == FullSpan
  {
    if zoom > 0 then
      var p := Pow2(zoom);
      DivBounds(FullSpan, p);
      FullSpan / p
    else FullSpan
  }

  /** Each further zoom step halves the span, rounding down. */
  lemma SpanHalves(zoom: int)
    requires zoom >= 1
    ensures Span(zoom + 1) == Span(zoom) / 2
  {
    assert Pow2(zoom + 1) == 2 * Pow2(zoom);
    DivHalf(FullSpan, Pow2(zoom));
  }

  /**
   * The start offset sent with the zoom command: zero unless a positive
   * offset in kHz is given; then the offset plus 100 kHz, in units of a
   * sixteenth of a bin at zoom 0 times a thousand, truncated.
   */
  function StartOffset(offsetKhz: int): (start: nat)
    ensures offsetKhz <= 0 ==> start == 0
    ensures offsetKhz > 0 ==> start * 30000 <= (offsetKhz + 100) * Bins * 16000 < (start + 1) * 30000
  {
    if offsetKhz <= 0 then 0 else (offsetKhz + 100) * Bins * 16000 / 30000
  }

  /** Half of `x`, truncated toward zero, as Python's `int` truncates. */
  function TruncHalf(x: int): int
  {
    if x >= 0 then x / 2 else -((-x) / 2)
  }

  /** Twice the truncated half falls short of `x` by at most one, toward zero. */
  lemma TruncHalfBounds(x: int)
    ensures x >= 0 ==> 0 <= x - 2 * TruncHalf(x) <= 1 && 0 <= TruncHalf(x) <= x
    ensures x < 0 ==> -1 <= x - 2 * TruncHalf(x) <= 0 && x <= TruncHalf(x) <= 0
  {
  }

  /** The band derived from the command-line options. */
  datatype Band = Band(span: nat, start: nat, center: int, lower: int, upper: int)

  /**
   * The band for a zoom factor and an offset in kHz; None when the zoom is so
   * large that two to its power overflows, which ends the program.
   */
  function BandFor(zoom: int, offsetKhz: int): (b: Option<Band>)
    ensures b.Some? <==> zoom < ZoomOverflow
    ensures b.Some? ==> b.value.span == Span(zoom) && b.value.start == StartOffset(offsetKhz)
    ensures b.Some? ==> b.value.upper - b.value.lower == 10 * b.value.span
    ensures b.Some? ==> b.value.lower + b.value.upper == 20 * b.value.center
  {
    if zoom >= ZoomOverflow then None
    else
      var span := Span(zoom);
      var center := TruncHalf(span + 2 * offsetKhz);
      Some(Band(span, StartOffset(offsetKhz), center, 10 * center - 5 * span, 10 * center + 5 * span))
  }

  /** The centre is the offset plus half the span, truncated toward zero. */
  lemma CenterNearMiddle(zoom: int, offsetKhz: int)
    requires zoom < ZoomOverflow
    ensures var b := BandFor(zoom, offsetKhz).value;
      var twice := b.span + 2 * offsetKhz;
      (twice >= 0 ==> 0 <= twice - 2 * b.center <= 1) && (twice < 0 ==> -1 <= twice - 2 * b.center <= 0)
  {
    TruncHalfBounds(Span(zoom) + 2 * offsetKhz);
  }

  /** The lower edge truncated to whole kHz: the centre less half the span. */
  function LowEdge(b: Band): int { TruncHalf(2 * b.center - b.span) }

  /** The upper edge truncated to whole kHz: the centre plus half the span. */
  function HighEdge(b: Band): int { TruncHalf(2 * b.center + b.span) }

  /** The database file name: the host, then the lower and upper edges truncated to whole kHz. */
  function RrdName(host: string, b: Band): (name: string)
    ensures |name| > |host| + 4 && name[..|host|] == host && name[|name| - 4..] == ".rrd"
  {
    host + RrdSuffix(LowEdge(b), HighEdge(b))
  }

  function RrdSuffix(low: int, high: int): string
  {
    "_" + IntToString(low) + "_" + IntToString(high) + ".rrd"
  }

  /** A numeral never contains the separator of the file name. */
  lemma NoUnderscoreInNumeral(s: string)
    requires IsNumeral(s)
    ensures '_' !in s
  {
  }

  /** The suffix is read back field by field: the two edges and the extension. */
  lemma RrdSuffixFields(low: int, high: int)
    ensures Split(RrdSuffix(low, high)[1..], '_') == [IntToString(low), IntToString(high) + ".rrd"]
  {
    NumeralSuffixFields(IntToString(low), IntToString(high));
  }

  /** The suffix shape, for any two numerals. */
  lemma NumeralSuffixFields(a: string, h: string)
    requires IsNumeral(a) && IsNumeral(h)
    ensures Split(("_" + a + "_" + h + ".rrd")[1..], '_') == [a, h + ".rrd"]
  {
    var c := h + ".rrd";
    assert ("_" + a + "_" + h + ".rrd")[1..] == a + ['_'] + c;
    NoUnderscoreInNumeral(a);
    NoUnderscoreInNumeral(h);
    assert '_' !in c;
    SplitAtFirst(a, '_', c);
    SplitWithoutSep(c, '_');
    assert [a] + [c] == [a, c];
  }

  /** Distinct pairs of edges give distinct suffixes. */
  lemma RrdSuffixInjective(low: int, high: int, low': int, high': int)
    requires RrdSuffix(low, high) == RrdSuffix(low', high')
    ensures low == low' && high == high'
  {
    RrdSuffixFields(low, high);
    RrdSuffixFields(low', high');
    IntToStringInjective(low, low');
    var h, h' := IntToString(high), IntToString(high');
    assert h + ".rrd" == h' + ".rrd";
    assert h == (h + ".rrd")[..|h|];
    assert h' == (h' + ".rrd")[..|h'|];
    IntToStringInjective(high, high');
  }

  /** Two names for one host that are equal have equal edges. */
  lemma HostSuffixInjective(host: string, low: int, high: int, low': int, high': int)
    requires host + RrdSuffix(low, high) == host + RrdSuffix(low', high')
    ensures low == low' && high == high'
  {
    var x, y := RrdSuffix(low, high), RrdSuffix(low', high');
    assert x == (host + x)[|host|..];
    assert y == (host + y)[|host|..];
    RrdSuffixInjective(low, high, low', high');
  }

  /** For one host, distinct pairs of whole-kHz edges give distinct file names. */
  lemma RrdNameInjective(host: string, b: Band, b': Band)
    requires RrdName(host, b) == RrdName(host, b')
    ensures LowEdge(b) == LowEdge(b') && HighEdge(b) == HighEdge(b')
  {
    HostSuffixInjective(host, LowEdge(b), HighEdge(b), LowEdge(b'), HighEdge(b'));
  }
}
