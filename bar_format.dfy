/** The `bar` formatter: a row of `width` block glyphs with eight sub-levels
    per cell.  Magnitudes are reals: the model computes what the `f64` code
    computes without rounding. */
module BarFormat {
  import opened Wrappers
  import opened Values
  import opened FormatterTypes

  /** `VERTICAL_BAR_CHARS`: empty, one eighth, ..., full block. */
  const VERTICAL_BAR_CHARS: seq<char> :=
    [' ', '\U{258F}', '\U{258E}', '\U{258D}', '\U{258C}', '\U{258B}', '\U{258A}', '\U{2589}', '\U{2588}']

  const FULL_BLOCK: char := '\U{2588}'

  /** `f64::clamp(x, 0., 1.)`. */
  function Clamp01(x: real): (r: real)
    ensures 0.0 <= r <= 1.0
    ensures 0.0 <= x <= 1.0 ==> r == x
  {
    if x < 0.0 then 0.0 else if x > 1.0 then 1.0 else x
  }

  /** `(val / max_value).clamp(0., 1.)`.  With a zero `max_value` the
      float quotient is an infinity, of the sign of `val` for `+0` and of
      the opposite sign for `-0`, or NaN when `val` is 0; they render like
      1, 0 and 0.  An infinite maximum gives a zero quotient; a NaN maximum
      gives NaN, which `clamp` keeps and the final `as usize` of every
      cell turns into 0, so it renders like 0 too. */
  function Normalized(val: real, maxValue: F64): (r: real)
    ensures 0.0 <= r <= 1.0
    ensures NonFinite(maxValue) ==> r == 0.0
  {
    match maxValue
    case Finite(m) =>
      if m == 0.0 then (if val > 0.0 then 1.0 else 0.0)
      else Clamp01(val / m)
    case NegZero => if val < 0.0 then 1.0 else 0.0
    case _ => 0.0
  }

  /** The glyph index of cell `i` when `charsToFill` cells are to be filled:
      `((chars_to_fill - i).clamp(0., 1.) * 8.) as usize`. */
  function GlyphIndex(charsToFill: real, i: nat): (k: nat)
    ensures k <= 8
  {
    (Clamp01(charsToFill - i as real) * 8.0).Floor
  }

  /** The glyphs of cells `0 .. width`. */
  function Glyphs(width: nat, charsToFill: real): (r: string)
    ensures |r| == width
    ensures forall i :: 0 <= i < width ==> r[i] == VERTICAL_BAR_CHARS[GlyphIndex(charsToFill, i)]
  {
    seq(width, i requires 0 <= i < width => VERTICAL_BAR_CHARS[GlyphIndex(charsToFill, i)])
  }

  /** The number of cells to fill for `val`. */
  function CharsToFill(f: BarFormatter, val: real): real {
    Normalized(val, f.maxValue) * f.width as real
  }

  /** `BarFormatter::format`. */
  function Format(f: BarFormatter, v: Value): (r: Result<string, FormatError>)
    ensures v.Number? ==> r.Success? && |r.value| == f.width
    ensures v.Number? ==> forall i :: 0 <= i < f.width ==>
      r.value[i] in VERTICAL_BAR_CHARS && r.value[i] == VERTICAL_BAR_CHARS[GlyphIndex(CharsToFill(f, v.val), i)]
    ensures !v.Number? ==> r == Failure(CannotFormat(KindOf(v), "bar"))
  {
    match v
    case Number(val, _) => Success(Glyphs(f.width, CharsToFill(f, val)))
    case Text(_) => Failure(CannotFormat(TextKind, "bar"))
    case Icon(_) => Failure(CannotFormat(IconKind, "bar"))
    case Flag => Failure(CannotFormat(FlagKind, "bar"))
  }

  /** The fill never increases from left to right. */
  lemma GlyphsNonIncreasing(c: real, i: nat, j: nat)
    requires i <= j
    ensures GlyphIndex(c, i) >= GlyphIndex(c, j)
  {
    assert Clamp01(c - i as real) >= Clamp01(c - j as real);
  }

  /** Sum of the glyph indices of cells `0 .. n`, in eighths of a cell. */
  function Eighths(c: real, n: nat): nat {
    if n == 0 then 0 else Eighths(c, n - 1) + GlyphIndex(c, n - 1)
  }

  function MinReal(a: real, b: real): real { if a <= b then a else b }

  /** The first `n` cells hold exactly `floor(8 * min(c, n))` eighths: whole
      cells up to `c`, one partial cell, then empty ones. */
  lemma {:induction false} EighthsFloor(c: real, n: nat)
    requires 0.0 <= c
    ensures Eighths(c, n) == (8.0 * MinReal(c, n as real)).Floor
  {
    if n > 0 {
      var m := n - 1;
      EighthsFloor(c, m);
      if c >= n as real {
        assert GlyphIndex(c, m) == 8;
        assert (8.0 * n as real).Floor == 8 * n;
        assert (8.0 * m as real).Floor == 8 * m;
      } else if c >= m as real {
        var x := 8.0 * (c - m as real);
        assert GlyphIndex(c, m) == x.Floor;
        assert 8.0 * c == x + (8 * m) as real;
        FloorShift(x, 8 * m);
        assert (8.0 * m as real).Floor == 8 * m;
      } else {
        assert GlyphIndex(c, m) == 0;
      }
    }
  }

  lemma FloorShift(x: real, k: int)
    ensures (x + k as real).Floor == x.Floor + k
  {
  }

  lemma ProductNonNegative(a: real, b: real)
    requires 0.0 <= a && 0.0 <= b
    ensures 0.0 <= a * b
  {
  }

  /** The whole bar displays `floor(8 * fill * width)` eighths of a cell. */
  lemma BarResolution(f: BarFormatter, val: real)
    ensures Eighths(CharsToFill(f, val), f.width)
         == (8.0 * CharsToFill(f, val)).Floor
  {
    var c := CharsToFill(f, val);
    assert 0.0 <= c <= f.width as real by {
      var nv := Normalized(val, f.maxValue);
      var w := f.width as real;
      assert 0.0 <= nv <= 1.0 && 0.0 <= w;
      assert w - nv * w == (1.0 - nv) * w;
      ProductNonNegative(1.0 - nv, w);
      ProductNonNegative(nv, w);
    }
    EighthsFloor(c, f.width);
  }

  /** At or above `max_value` every cell is a full block; at or below zero
      every cell is empty. */
  lemma BarSaturates(f: BarFormatter, val: real)
    requires f.maxValue.Finite? && f.maxValue.x > 0.0
    ensures val >= f.maxValue.x ==> Format(f, Number(val, NoUnit)) == Success(seq(f.width, _ => FULL_BLOCK))
    ensures val <= 0.0 ==> Format(f, Number(val, NoUnit)) == Success(seq(f.width, _ => ' '))
  {
    if val >= f.maxValue.x {
      QuotientBounds(val, f.maxValue.x);
      FullWhenNormalizedOne(f, val);
    }
    if val <= 0.0 {
      QuotientBounds(val, f.maxValue.x);
      EmptyWhenNormalizedZero(f, val);
    }
  }

  /** A zero `max_value` turns the bar into a switch: with `+0` a positive
      value fills every cell and any other value none; with `-0` it is the
      mirror image, a negative value filling every cell. */
  lemma BarZeroMaximum(f: BarFormatter, val: real)
    requires f.maxValue == Finite(0.0) || f.maxValue.NegZero?
    ensures (if f.maxValue.NegZero? then val < 0.0 else val > 0.0) ==>
      Format(f, Number(val, NoUnit)) == Success(seq(f.width, _ => FULL_BLOCK))
    ensures (if f.maxValue.NegZero? then val >= 0.0 else val <= 0.0) ==>
      Format(f, Number(val, NoUnit)) == Success(seq(f.width, _ => ' '))
  {
    if Normalized(val, f.maxValue) == 1.0 {
      FullWhenNormalizedOne(f, val);
    } else {
      EmptyWhenNormalizedZero(f, val);
    }
  }

  lemma FullWhenNormalizedOne(f: BarFormatter, val: real)
    requires Normalized(val, f.maxValue) == 1.0
    ensures Format(f, Number(val, NoUnit)) == Success(seq(f.width, _ => FULL_BLOCK))
  {
    var r := Format(f, Number(val, NoUnit)).value;
    assert CharsToFill(f, val) == f.width as real;
    forall i | 0 <= i < f.width ensures r[i] == FULL_BLOCK {
      assert CharsToFill(f, val) - i as real >= 1.0;
      assert GlyphIndex(CharsToFill(f, val), i) == 8;
    }
    assert r == seq(f.width, _ => FULL_BLOCK);
  }

  lemma EmptyWhenNormalizedZero(f: BarFormatter, val: real)
    requires Normalized(val, f.maxValue) == 0.0
    ensures Format(f, Number(val, NoUnit)) == Success(seq(f.width, _ => ' '))
  {
    var r := Format(f, Number(val, NoUnit)).value;
    assert CharsToFill(f, val) == 0.0;
    forall i | 0 <= i < f.width ensures r[i] == ' ' {
      assert GlyphIndex(CharsToFill(f, val), i) == 0;
    }
    assert r == seq(f.width, _ => ' ');
  }

  /** An infinite or NaN `max_value` (the parse accepts `inf` and `NaN`)
      leaves every cell empty, whatever the value. */
  lemma BarNonFiniteMaximum(f: BarFormatter, v: Value)
    requires v.Number? && NonFinite(f.maxValue)
    ensures Format(f, v) == Success(seq(f.width, _ => ' '))
  {
    EmptyWhenNormalizedZero(f, v.val);
    assert Format(f, v) == Format(f, Number(v.val, NoUnit));
  }

  lemma QuotientBounds(x: real, m: real)
    requires m > 0.0
    ensures x >= m ==> x / m >= 1.0
    ensures x <= 0.0 ==> x / m <= 0.0
  {
    var q := x / m;
    assert q * m == x;
    if x >= m && q < 1.0 {
      assert false;
    }
    if x <= 0.0 && q > 0.0 {
      assert false;
    }
  }

  /** Half of the default bar: two full cells, a half cell, two empty ones. */
  lemma HalfBarScenario()
    ensures Format(BarFormatter(5, Finite(100.0)), Number(50.0, NoUnit))
         == Success([FULL_BLOCK, FULL_BLOCK, '\U{258C}', ' ', ' '])
  {
    var f := BarFormatter(5, Finite(100.0));
    assert CharsToFill(f, 50.0) == 2.5;
    assert GlyphIndex(2.5, 0) == 8;
    assert GlyphIndex(2.5, 1) == 8;
    assert GlyphIndex(2.5, 2) == 4;
    assert GlyphIndex(2.5, 3) == 0;
    assert GlyphIndex(2.5, 4) == 0;
    var r := Format(f, Number(50.0, NoUnit)).value;
    assert |r| == 5;
    assert r[0] == FULL_BLOCK && r[1] == FULL_BLOCK && r[2] == '\U{258C}' && r[3] == ' ' && r[4] == ' ';
    assert r == [FULL_BLOCK, FULL_BLOCK, '\U{258C}', ' ', ' '];
  }
}
