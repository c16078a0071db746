/**
 * `human_readable(num, binary)`: the unit suffix and the number of decimals used
 * to show a byte count. The text `'{:.2f}'` / `'{:.1f}'` makes of the scaled value
 * is a parameter (`fixed`); everything around it is modelled.
 */
module Units {
  import opened Wrappers
  import opened Text

  /** What `human_readable` prints: the digits part, a separator and a unit. */
  datatype Digits =
    | Whole(n: int)                  // '{}'.format(num): the integer as given
    | Fixed(x: real, places: nat)    // '{:.Nf}'.format(x)
  datatype Display = Display(digits: Digits, sep: string, unit: string)

  const BINARY_UNITS: seq<string> := ["B", "K", "M", "G", "T", "P", "E", "Z"]
  const DECIMAL_UNITS: seq<string> := ["B", "KB", "MB", "GB", "TB", "PB", "EB", "ZB"]

  function Base(binary: bool): nat {
    if binary then 1024 else 1000
  }

  function Sep(binary: bool): string {
    if binary then "" else " "
  }

  function UnitList(binary: bool): seq<string> {
    if binary then BINARY_UNITS else DECIMAL_UNITS
  }

  /** The unit used past the end of the list, with no further division. */
  function Terminal(binary: bool): string {
    if binary then "YiB" else "YB"
  }

  function Abs(n: int): nat {
    if n < 0 then -n else n
  }

  function RAbs(x: real): real {
    if x < 0.0 then -x else x
  }

  function Pow(b: nat, k: nat): (p: nat)
    ensures b >= 1 ==> p >= 1
  {
    if k == 0 then 1 else b * Pow(b, k - 1)
  }

  /** The number of whole divisions by `b` before `m` drops below `b` (floor of log base b). */
  function Scale(m: nat, b: nat): nat
    requires b >= 2
    decreases m
  {
    if m < b then 0 else DivDecreases(m, b); 1 + Scale(m / b, b)
  }

  lemma DivDecreases(m: nat, b: nat)
    requires 2 <= b <= m
    ensures 1 <= m / b < m
  {
    var q := m / b;
    assert m == b * q + m % b;
  }

  /** `num / b**k`, computed exactly. */
  function Scaled(num: int, b: nat, k: nat): real
    requires b >= 1
  {
    num as real / Pow(b, k) as real
  }

  /** Renders a display, given the fixed-point formatter. */
  function Render(d: Display, fixed: (real, nat) -> string): string {
    match d.digits
    case Whole(n) => IntToString(n) + d.sep + d.unit
    case Fixed(x, places) => fixed(x, places) + d.sep + d.unit
  }

  /**
   * The text of a display is the digits, then the separator and the unit. The digits
   * of a whole display read back as its integer.
   */
  lemma RenderText(d: Display, fixed: (real, nat) -> string)
    ensures var s, tail := Render(d, fixed), d.sep + d.unit;
      |s| >= |tail| && s[|s| - |tail|..] == tail &&
      (d.digits.Whole? ==> ParseInt(s[..|s| - |tail|]) == Some(d.digits.n)) &&
      (d.digits.Fixed? ==> s[..|s| - |tail|] == fixed(d.digits.x, d.digits.places))
  {
    var digits := match d.digits
      case Whole(n) => IntToString(n)
      case Fixed(x, places) => fixed(x, places);
    assert Render(d, fixed) == digits + (d.sep + d.unit);
    assert (digits + (d.sep + d.unit))[..|digits|] == digits;
    if d.digits.Whole? {
      IntToStringRoundTrip(d.digits.n);
    }
  }

  /**
   * The display `human_readable(num, binary)` produces: below one base unit the
   * integer itself with unit B; otherwise `num` scaled down by the largest power
   * of the base that leaves it below the base, with the matching unit, two
   * decimals under 10 and one otherwise; from the eighth power on, the terminal
   * unit with one decimal.
   */
  function Format(num: int, binary: bool): (d: Display)
    ensures d.sep == Sep(binary)
    ensures d.digits.Whole? <==> Abs(num) < Base(binary)
    ensures d.digits.Whole? ==> d.digits.n == num && d.unit == "B"
  {
    var b := Base(binary);
    var m := Abs(num);
    if m < b then Display(Whole(num), Sep(binary), "B")
    else
      var k := Scale(m, b);
      if k < |UnitList(binary)| then
        var x := Scaled(num, b, k);
        Display(Fixed(x, if RAbs(x) < 10.0 then 2 else 1), Sep(binary), UnitList(binary)[k])
      else Display(Fixed(Scaled(num, b, 8), 1), Sep(binary), Terminal(binary))
  }

  lemma {:induction false} PowMonotone(b: nat, j: nat, k: nat)
    requires b >= 1 && j <= k
    ensures Pow(b, j) <= Pow(b, k)
    decreases k
  {
    if j < k {
      PowMonotone(b, j, k - 1);
      var p := Pow(b, k - 1);
      MulLeft(p, 1, b);
      assert Pow(b, k) == b * p;
    }
  }

  /** `b**Scale(m) <= m < b**(Scale(m) + 1)`. */
  lemma {:induction false} ScaleBounds(m: nat, b: nat)
    requires b >= 2 && m >= 1
    ensures Pow(b, Scale(m, b)) <= m < Pow(b, Scale(m, b) + 1)
    decreases m
  {
    if m >= b {
      DivDecreases(m, b);
      var q := m / b;
      ScaleBounds(q, b);
      var k := Scale(q, b);
      assert Scale(m, b) == k + 1;
      DivBounds(m, b);
      MulLeft(b, Pow(b, k), q);
      MulLeft(b, q + 1, Pow(b, k + 1));
      MulSucc(b, q);
      assert Pow(b, k + 1) == b * Pow(b, k);
      assert Pow(b, k + 2) == b * Pow(b, k + 1);
    }
  }

  lemma DivBounds(m: nat, b: nat)
    requires b >= 1
    ensures b * (m / b) <= m < b * (m / b) + b
  {
  }

  lemma MulLeft(b: nat, x: nat, y: nat)
    requires x <= y
    ensures b * x <= b * y
  {
  }

  lemma MulSucc(b: nat, q: nat)
    ensures b * (q + 1) == b * q + b
  {
  }

  /** The scale is the only k with `b**k <= m < b**(k+1)`. */
  lemma ScaleUnique(m: nat, b: nat, k: nat)
    requires b >= 2 && Pow(b, k) <= m < Pow(b, k + 1)
    ensures Scale(m, b) == k
  {
    assert m >= 1;
    ScaleBounds(m, b);
    var s := Scale(m, b);
    if s < k {
      PowMonotone(b, s + 1, k);
    } else if s > k {
      PowMonotone(b, k + 1, s);
    }
  }

  /** Multiplying by a positive number keeps the order. */
  lemma MulMonotone(a: real, c: real, p: real)
    requires p > 0.0
    ensures a < c <==> a * p < c * p
  {
    if a < c {
      assert (c - a) * p > 0.0;
    } else {
      assert (a - c) * p >= 0.0;
    }
  }

  /** `|num / p| < c` exactly when `|num| < c * p`. */
  lemma ScaledBelow(num: int, p: nat, c: nat)
    requires p >= 1
    ensures RAbs(num as real / p as real) < c as real <==> Abs(num) < c * p
  {
    var q := p as real;
    var x := num as real / q;
    var a := RAbs(x);
    assert a * q == Abs(num) as real by {
      assert x * q == num as real;
      if x < 0.0 {
        assert a * q == -(x * q);
      }
    }
    assert (c * p) as real == c as real * q;
    assert a < c as real <==> a * q < c as real * q by {
      MulMonotone(a, c as real, q);
    }
  }

  /** The one number that gives `n` when multiplied by a positive `d` is `n / d`. */
  lemma DivUnique(y: real, n: real, d: real)
    requires d > 0.0 && y * d == n
    ensures y == n / d
  {
    var z := n / d;
    assert z * d == n;
    assert (y - z) * d == 0.0;
  }

  /** Dividing the scaled value by the base once more scales by the next power. */
  lemma ScaledStep(num: int, b: nat, k: nat)
    requires b >= 1
    ensures Scaled(num, b, k) / b as real == Scaled(num, b, k + 1)
  {
    var q, c := Pow(b, k) as real, b as real;
    assert Pow(b, k + 1) as real == c * q;
    var x := num as real / q;
    var y := x / c;
    assert x * q == num as real && y * c == x;
    assert y * (c * q) == (y * c) * q;
    DivUnique(y, num as real, c * q);
  }

  /**
   * `human_readable`: tries the units in order, dividing by the base after each
   * one that the value has outgrown.
   */
  method HumanReadable(num: int, binary: bool) returns (d: Display)
    ensures d == Format(num, binary)
  {
    var b := Base(binary);
    var sep := Sep(binary);
    if Abs(num) < b {
      return Display(Whole(num), sep, "B");
    }
    var units := UnitList(binary);
    var x: real := num as real;
    var i := 0;
    assert x == Scaled(num, b, 0);
    while i < |units|
      invariant 0 <= i <= |units|
      invariant x == Scaled(num, b, i)
      invariant Pow(b, i) <= Abs(num)
    {
      ScaledBelow(num, Pow(b, i), 10);
      ScaledBelow(num, Pow(b, i), b);
      if RAbs(x) < 10.0 {
        ScaleUnique(Abs(num), b, i);
        return Display(Fixed(x, 2), sep, units[i]);
      }
      if RAbs(x) < b as real {
        ScaleUnique(Abs(num), b, i);
        return Display(Fixed(x, 1), sep, units[i]);
      }
      ScaledStep(num, b, i);
      x := x / b as real;
      i := i + 1;
    }
    ScaleBounds(Abs(num), b);
    if Scale(Abs(num), b) < 8 {
      PowMonotone(b, Scale(Abs(num), b) + 1, 8);
    }
    return Display(Fixed(x, 1), sep, Terminal(binary));
  }

  /** Below one base unit nothing is scaled: `str(num) + "B"` or `str(num) + " B"`. */
  lemma FormatSmall(num: int, binary: bool, fixed: (real, nat) -> string)
    requires Abs(num) < Base(binary)
    ensures Render(Format(num, binary), fixed) == IntToString(num) + (if binary then "B" else " B")
  {
  }

  /** The position of the chosen unit: the scale, capped at 8 for the terminal unit. */
  function UnitIndex(num: int, binary: bool): nat {
    var b := Base(binary);
    if Abs(num) < b then 0
    else if Scale(Abs(num), b) < 8 then Scale(Abs(num), b)
    else 8
  }

  /**
   * From one base unit up, the unit is the k-th of the list for the one k >= 1 with
   * `b**k <= |num| < b**(k+1)` (equivalently the least k >= 1 with `|num| / b**k < b`),
   * and the terminal unit exactly when `|num| >= b**8`; the unscaled B is never used.
   */
  lemma FormatUnit(num: int, binary: bool)
    requires Abs(num) >= Base(binary)
    ensures 1 <= UnitIndex(num, binary) <= 8
    ensures Format(num, binary).unit ==
      if UnitIndex(num, binary) < 8 then UnitList(binary)[UnitIndex(num, binary)] else Terminal(binary)
    ensures UnitIndex(num, binary) == 8 <==> Abs(num) >= Pow(Base(binary), 8)
    ensures UnitIndex(num, binary) < 8 ==>
      Pow(Base(binary), UnitIndex(num, binary)) <= Abs(num) < Pow(Base(binary), UnitIndex(num, binary) + 1)
    ensures Format(num, binary).unit != "B"
  {
    var b, m := Base(binary), Abs(num);
    ScaleBounds(m, b);
    var s := Scale(m, b);
    assert s >= 1;
    if s >= 8 {
      PowMonotone(b, 8, s);
    } else {
      PowMonotone(b, s + 1, 8);
      assert UnitList(binary)[s] != "B" by {
        assert UnitList(binary)[s][0] != 'B';
      }
    }
  }

  /**
   * From one base unit up the digits are `num / b**k` for the chosen unit's index k,
   * with two decimals exactly when that is below 10 and the unit is not the terminal
   * one.
   */
  lemma FormatPrecision(num: int, binary: bool)
    requires Abs(num) >= Base(binary)
    ensures Format(num, binary).digits.Fixed?
    ensures Format(num, binary).digits.x == Scaled(num, Base(binary), UnitIndex(num, binary))
    ensures Format(num, binary).digits.places == 1 || Format(num, binary).digits.places == 2
    ensures Format(num, binary).digits.places == 2 <==>
      UnitIndex(num, binary) < 8 && RAbs(Format(num, binary).digits.x) < 10.0
  {
    var b := Base(binary);
    var k := Scale(Abs(num), b);
    var d := Format(num, binary);
    assert |UnitList(binary)| == 8;
    var i := if k < 8 then k else 8;
    assert UnitIndex(num, binary) == i;
    var x := Scaled(num, b, i);
    if k < 8 {
      assert d.digits == Fixed(x, if RAbs(x) < 10.0 then 2 else 1);
    } else {
      assert d.digits == Fixed(x, 1);
    }
  }

  /** `human_readable(1536, binary=True)` is `'1.50K'`. */
  lemma Example1536()
    ensures Format(1536, true) == Display(Fixed(1.5, 2), "", "K")
  {
    assert Scale(1536, 1024) == 1;
  }

  /** `human_readable(1000)` is `'1.00 KB'` and `human_readable(999)` is `'999 B'`. */
  lemma ExampleDecimal()
    ensures Format(1000, false) == Display(Fixed(1.0, 2), " ", "KB")
    ensures Format(999, false) == Display(Whole(999), " ", "B")
  {
    assert Scale(1000, 1000) == 1;
  }
}
