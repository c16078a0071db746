/**
 * The column layout of the tree store and the row built for each record
 * (`build_treestore`, after the listing has been fetched): every property gives a
 * string column, and each size property and `creation` gives a float column after
 * it, holding the raw number the string column displays.
 */
module Columns {
  import opened Wrappers
  import opened Text
  import opened Units
  import opened Listing

  const SIZE_PROPERTIES: seq<string> :=
    ["used", "usedbychildren", "usedbydataset", "usedbysnapshots", "available", "referenced"]

  /** Membership in `SIZE_PROPERTIES`, spelled out (see `SizeProperties`). */
  predicate IsSize(p: string) {
    p == "used" || p == "usedbychildren" || p == "usedbydataset" ||
    p == "usedbysnapshots" || p == "available" || p == "referenced"
  }

  /** `prop in SIZE_PROPERTIES` is exactly `IsSize(prop)`. */
  lemma SizeProperties(p: string)
    ensures p in SIZE_PROPERTIES <==> IsSize(p)
  {
  }

  /** A property shown as a display string plus a numeric sort key. */
  predicate IsDual(p: string) {
    IsSize(p) || p == "creation"
  }

  /** The type of a `Gtk.TreeStore` column: `str` or `float`. */
  datatype ColumnType = StrColumn | FloatColumn

  /** A value stored in one slot of a row. */
  datatype Cell = Str(s: string) | Num(x: real)

  predicate Fits(c: Cell, t: ColumnType) {
    (c.Str? && t == StrColumn) || (c.Num? && t == FloatColumn)
  }

  /** A row the store accepts: one value of the right type per column. */
  predicate Conforms(row: seq<Cell>, cols: seq<ColumnType>) {
    |row| == |cols| && forall s :: 0 <= s < |row| ==> Fits(row[s], cols[s])
  }

  function PropColumns(p: string): seq<ColumnType> {
    if IsDual(p) then [StrColumn, FloatColumn] else [StrColumn]
  }

  /** How many of the properties are dual. */
  function DualCount(props: seq<string>): (n: nat)
    ensures n <= |props|
    decreases |props|
  {
    if props == [] then 0
    else DualCount(props[..|props| - 1]) + (if IsDual(props[|props| - 1]) then 1 else 0)
  }

  /** The column types `build_treestore` gives the store, property by property. */
  function ColumnTypes(props: seq<string>): (cols: seq<ColumnType>)
    ensures |cols| == |props| + DualCount(props)
    decreases |props|
  {
    if props == [] then []
    else ColumnTypes(props[..|props| - 1]) + PropColumns(props[|props| - 1])
  }

  /** The first store slot of property j: j plus the number of dual properties before it. */
  function Slot(props: seq<string>, j: nat): nat
    requires j <= |props|
  {
    j + DualCount(props[..j])
  }

  /** The dual properties of two lists one after the other are those of each. */
  lemma {:induction false} DualCountAppend(a: seq<string>, b: seq<string>)
    ensures DualCount(a + b) == DualCount(a) + DualCount(b)
    decreases |b|
  {
    if b == [] {
      assert a + b == a;
    } else {
      var n := |b| - 1;
      assert (a + b)[..|a + b| - 1] == a + b[..n];
      DualCountAppend(a, b[..n]);
    }
  }

  /** The layout of two property lists one after the other is the two layouts in a row. */
  lemma {:induction false} ColumnTypesAppend(a: seq<string>, b: seq<string>)
    ensures ColumnTypes(a + b) == ColumnTypes(a) + ColumnTypes(b)
    decreases |b|
  {
    if b == [] {
      assert a + b == a;
    } else {
      var n := |b| - 1;
      assert (a + b)[..|a + b| - 1] == a + b[..n];
      ColumnTypesAppend(a, b[..n]);
      assert ColumnTypes(a + b) == ColumnTypes(a + b[..n]) + PropColumns(b[n]);
      assert ColumnTypes(b) == ColumnTypes(b[..n]) + PropColumns(b[n]);
      AppendAssoc(ColumnTypes(a), ColumnTypes(b[..n]), PropColumns(b[n]));
    }
  }

  lemma SplitAround<T>(s: seq<T>, j: nat)
    requires j < |s|
    ensures s == s[..j] + [s[j]] + s[j + 1..]
    ensures s[..j + 1] == s[..j] + [s[j]]
  {
  }

  lemma AppendAssoc<T>(a: seq<T>, b: seq<T>, c: seq<T>)
    ensures a + (b + c) == (a + b) + c
  {
  }

  lemma PrefixOfPrefix<T>(s: seq<T>, n: nat, j: nat)
    requires j <= n <= |s|
    ensures s[..n][..j] == s[..j]
  {
  }

  lemma SliceOfAppend<T>(x: seq<T>, y: seq<T>, lo: nat, hi: nat)
    requires lo <= hi <= |x|
    ensures (x + y)[lo..hi] == x[lo..hi]
    ensures (x + y)[|x|..|x| + |y|] == y
  {
  }

  /** A slice of the front part of `whole` is a slice of `whole`. */
  lemma SegmentOfFront<T>(whole: seq<T>, front: seq<T>, back: seq<T>, lo: nat, hi: nat, seg: seq<T>)
    requires whole == front + back && lo <= hi <= |front| && front[lo..hi] == seg
    ensures hi <= |whole| && whole[lo..hi] == seg
  {
    assert whole[lo..hi] == front[lo..hi];
  }

  /** The slot after property j's: one further, or two for a dual property. */
  lemma SlotStep(props: seq<string>, j: nat)
    requires j < |props|
    ensures Slot(props, j + 1) == Slot(props, j) + if IsDual(props[j]) then 2 else 1
  {
    assert props[..j + 1][..j] == props[..j];
  }

  /**
   * Property j owns the slots from `Slot(props, j)` up to `Slot(props, j + 1)`: one
   * string slot, followed by one float slot when it is dual.
   */
  lemma LayoutSegment(props: seq<string>, j: nat)
    requires j < |props|
    ensures Slot(props, j + 1) == Slot(props, j) + |PropColumns(props[j])| <= |ColumnTypes(props)|
    ensures ColumnTypes(props)[Slot(props, j)..Slot(props, j + 1)] == PropColumns(props[j])
  {
    var pre, rest := props[..j], props[j + 1..];
    SplitAround(props, j);
    ColumnTypesAppend(pre, [props[j]]);
    ColumnTypesAppend(pre + [props[j]], rest);
    DualCountAppend(pre, [props[j]]);
    assert ColumnTypes([props[j]]) == PropColumns(props[j]) by {
      assert [props[j]][..0] == [];
    }
    assert ColumnTypes(props) == ColumnTypes(pre) + PropColumns(props[j]) + ColumnTypes(rest);
  }

  /** The `cols` loop of `build_treestore`: `str` per property, then `float` for dual ones. */
  method StoreColumns(props: seq<string>) returns (cols: seq<ColumnType>)
    ensures cols == ColumnTypes(props)
  {
    cols := [];
    for i := 0 to |props|
      invariant cols == ColumnTypes(props[..i])
    {
      assert props[..i + 1][..i] == props[..i];
      cols := cols + [StrColumn];
      if IsSize(props[i]) || props[i] == "creation" {
        cols := cols + [FloatColumn];
      }
    }
    assert props[..|props|] == props;
  }

  /**
   * The renderings the model does not interpret: `'{:.Nf}'.format(x)` and
   * `time.strftime('%a %b %d %H:%M %Y', time.localtime(t))`.
   */
  datatype Formatters = Formatters(fixed: (real, nat) -> string, localTime: int -> string)

  /** Python's `ValueError` from `int(...)` on a size or `creation` field. */
  datatype RowError = NotAnInteger(prop: string, value: string)

  /** The values one property contributes to a row, given its raw field. */
  function Cells(p: string, v: string, fmt: Formatters): (r: Result<seq<Cell>, RowError>)
    ensures r.Success? ==> Conforms(r.value, PropColumns(p))
    ensures r.Failure? <==> IsDual(p) && !(IsSize(p) && v == "-") && ParseInt(v).None?
    ensures r.Failure? ==> r.error == NotAnInteger(p, v)
    ensures !IsDual(p) ==> r == Success([Str(v)])
  {
    if IsSize(p) then
      if v == "-" then Success([Str("-"), Num(0.0)])
      else
        match ParseInt(v)
        case None => Failure(NotAnInteger(p, v))
        case Some(n) => Success([Str(Render(Format(n, true), fmt.fixed)), Num(n as real)])
    else if p == "creation" then
      match ParseInt(v)
      case None => Failure(NotAnInteger(p, v))
      case Some(t) => Success([Str(fmt.localTime(t)), Num(t as real)])
    else Success([Str(v)])
  }

  /** Every property has a field in the record. */
  predicate HasProps(rec: Record, props: seq<string>) {
    forall i :: 0 <= i < |props| ==> props[i] in rec
  }

  /** The row of one record, or the error of its first property that is not an integer. */
  function RowOf(rec: Record, props: seq<string>, fmt: Formatters): (r: Result<seq<Cell>, RowError>)
    requires HasProps(rec, props)
    ensures r.Success? ==> |r.value| == |props| + DualCount(props)
    decreases |props|
  {
    if props == [] then Success([])
    else
      var n := |props| - 1;
      match RowOf(rec, props[..n], fmt)
      case Failure(e) => Failure(e)
      case Success(row) =>
        match Cells(props[n], rec[props[n]], fmt)
        case Failure(e) => Failure(e)
        case Success(cells) => Success(row + cells)
  }

  /** The `row` loop of `build_treestore` for one record. */
  method BuildRow(rec: Record, props: seq<string>, fmt: Formatters) returns (r: Result<seq<Cell>, RowError>)
    requires HasProps(rec, props)
    ensures r == RowOf(rec, props, fmt)
  {
    var row: seq<Cell> := [];
    for i := 0 to |props|
      invariant RowOf(rec, props[..i], fmt) == Success(row)
    {
      var prop := props[i];
      assert props[..i + 1][..i] == props[..i];
      if IsSize(prop) {
        if rec[prop] == "-" {
          row := row + [Str("-"), Num(0.0)];
        } else {
          var n := ParseInt(rec[prop]);
          if n.None? {
            RowFailureSticks(rec, props, fmt, i + 1);
            return Failure(NotAnInteger(prop, rec[prop]));
          }
          row := row + [Str(Render(Format(n.value, true), fmt.fixed)), Num(n.value as real)];
        }
      } else if prop == "creation" {
        var t := ParseInt(rec[prop]);
        if t.None? {
          RowFailureSticks(rec, props, fmt, i + 1);
          return Failure(NotAnInteger(prop, rec[prop]));
        }
        row := row + [Str(fmt.localTime(t.value)), Num(t.value as real)];
      } else {
        row := row + [Str(rec[prop])];
      }
    }
    assert props[..|props|] == props;
    return Success(row);
  }

  /** Once a prefix of the properties fails, the whole row fails with the same error. */
  lemma {:induction false} RowFailureSticks(rec: Record, props: seq<string>, fmt: Formatters, m: nat)
    requires HasProps(rec, props) && m <= |props|
    requires RowOf(rec, props[..m], fmt).Failure?
    ensures RowOf(rec, props, fmt) == RowOf(rec, props[..m], fmt)
    decreases |props|
  {
    if m < |props| {
      var n := |props| - 1;
      assert props[..n][..m] == props[..m];
      RowFailureSticks(rec, props[..n], fmt, m);
    } else {
      assert props[..m] == props;
    }
  }

  lemma ConformsAppend(a: seq<Cell>, b: seq<Cell>, s: seq<ColumnType>, t: seq<ColumnType>)
    requires Conforms(a, s) && Conforms(b, t)
    ensures Conforms(a + b, s + t)
  {
    forall k | 0 <= k < |a + b| ensures Fits((a + b)[k], (s + t)[k]) {
      if k >= |a| {
        assert (a + b)[k] == b[k - |a|] && (s + t)[k] == t[k - |a|];
      }
    }
  }

  /** Every row built from `props` has the store's column types, slot by slot. */
  lemma {:induction false} RowConforms(rec: Record, props: seq<string>, fmt: Formatters)
    requires HasProps(rec, props) && RowOf(rec, props, fmt).Success?
    ensures Conforms(RowOf(rec, props, fmt).value, ColumnTypes(props))
    decreases |props|
  {
    if props != [] {
      var n := |props| - 1;
      RowConforms(rec, props[..n], fmt);
      var cells := Cells(props[n], rec[props[n]], fmt);
      ConformsAppend(RowOf(rec, props[..n], fmt).value, cells.value,
                     ColumnTypes(props[..n]), PropColumns(props[n]));
    }
  }

  /** A successful row is the row of all but the last property, then the last one's values. */
  lemma RowOfStep(rec: Record, props: seq<string>, fmt: Formatters)
    requires HasProps(rec, props) && RowOf(rec, props, fmt).Success? && props != []
    ensures var n := |props| - 1;
      RowOf(rec, props[..n], fmt).Success? && Cells(props[n], rec[props[n]], fmt).Success? &&
      RowOf(rec, props, fmt).value ==
        RowOf(rec, props[..n], fmt).value + Cells(props[n], rec[props[n]], fmt).value
  {
  }

  /** The last property's values are the last slots of the row. */
  lemma RowSegmentLast(rec: Record, props: seq<string>, fmt: Formatters, row: seq<Cell>, j: nat)
    requires HasProps(rec, props) && RowOf(rec, props, fmt) == Success(row) && j + 1 == |props|
    ensures Slot(props, j) <= Slot(props, j + 1) <= |row|
    ensures Cells(props[j], rec[props[j]], fmt) == Success(row[Slot(props, j)..Slot(props, j + 1)])
  {
    var n := j;
    RowOfStep(rec, props, fmt);
    SlotStep(props, n);
    var front := RowOf(rec, props[..n], fmt).value;
    var cells := Cells(props[n], rec[props[n]], fmt).value;
    assert |cells| == |PropColumns(props[n])| == if IsDual(props[n]) then 2 else 1;
    var lo, hi := Slot(props, n), Slot(props, n + 1);
    assert lo == |front| && hi == |front| + |cells|;
    SliceOfAppend(front, cells, 0, 0);
    assert row[lo..hi] == cells;
  }

  /** Property j's values sit in its own slots of the row, in property order. */
  lemma {:induction false} RowSegment(rec: Record, props: seq<string>, fmt: Formatters, row: seq<Cell>, j: nat)
    requires HasProps(rec, props) && RowOf(rec, props, fmt) == Success(row) && j < |props|
    ensures Slot(props, j) <= Slot(props, j + 1) <= |row|
    ensures Cells(props[j], rec[props[j]], fmt) == Success(row[Slot(props, j)..Slot(props, j + 1)])
    decreases |props|
  {
    var n := |props| - 1;
    if j == n {
      RowSegmentLast(rec, props, fmt, row, j);
    } else {
      var pre := props[..n];
      RowOfStep(rec, props, fmt);
      var front := RowOf(rec, pre, fmt).value;
      var cells := Cells(props[n], rec[props[n]], fmt).value;
      assert row == front + cells;
      RowSegment(rec, pre, fmt, front, j);
      var lo, hi := Slot(props, j), Slot(props, j + 1);
      assert pre[j] == props[j] && Slot(pre, j) == lo && Slot(pre, j + 1) == hi by {
        PrefixOfPrefix(props, n, j);
        PrefixOfPrefix(props, n, j + 1);
      }
      assert hi <= |front| <= |row|;
      SegmentOfFront(row, front, cells, lo, hi, front[lo..hi]);
    }
  }

  /**
   * A row fails exactly when some dual property's field is not an integer (and, for
   * a size property, not `-`); the error names the first such property.
   */
  lemma {:induction false} RowFailure(rec: Record, props: seq<string>, fmt: Formatters)
    requires HasProps(rec, props)
    ensures RowOf(rec, props, fmt).Failure? <==>
      exists j :: 0 <= j < |props| && Cells(props[j], rec[props[j]], fmt).Failure?
    ensures RowOf(rec, props, fmt).Failure? ==>
      exists j :: 0 <= j < |props| && RowOf(rec, props, fmt).error == NotAnInteger(props[j], rec[props[j]]) &&
        Cells(props[j], rec[props[j]], fmt).Failure? &&
        forall i :: 0 <= i < j ==> Cells(props[i], rec[props[i]], fmt).Success?
    decreases |props|
  {
    if props != [] {
      var n := |props| - 1;
      RowFailure(rec, props[..n], fmt);
      assert forall i :: 0 <= i < n ==> props[..n][i] == props[i];
    }
  }

  /**
   * The sort key is exact: for a size property or `creation` whose field is the
   * printed integer n, the float slot holds n itself, and the display is the binary
   * human-readable form of n (or the local-time text of n).
   */
  lemma SortKeyExact(p: string, n: int, fmt: Formatters)
    requires IsDual(p)
    ensures Cells(p, IntToString(n), fmt) == Success([
      Str(if IsSize(p) then Render(Format(n, true), fmt.fixed) else fmt.localTime(n)),
      Num(n as real)])
  {
    IntToStringRoundTrip(n);
    assert IntToString(n) != "-" by {
      if n < 0 { assert |IntToString(n)| >= 2; } else { assert IntToString(n)[0] != '-'; }
    }
  }

  /** An absent size (`-`) shows as `-` and sorts as 0, the same key as a true zero. */
  lemma AbsentSize(p: string, fmt: Formatters)
    requires IsSize(p)
    ensures Cells(p, "-", fmt) == Success([Str("-"), Num(0.0)])
    ensures Cells(p, "0", fmt).Success? && Cells(p, "0", fmt).value[1] == Num(0.0)
  {
    assert ParseInt("0") == Some(0) by {
      assert AllDigits("0");
    }
  }
}
