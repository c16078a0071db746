/**
 * `parse_zfs_list_output(lines, props)`: one record per non-empty line of the
 * listing, mapping each property name to the tab-separated field at its position.
 */
module Listing {
  import opened Wrappers
  import opened Text

  /** A parsed line: property name to raw field text (a Python dict). */
  type Record = map<string, string>

  /** Python's `IndexError` on `line[i]`: the line (by index) had too few fields. */
  datatype ParseError = ShortLine(line: nat)

  /**
   * The dict the inner loop builds: `rec[props[i]] = fields[i]` for i in order, so
   * a property named twice keeps its last field.
   */
  function RecordOf(fields: seq<string>, props: seq<string>): (rec: Record)
    requires |props| <= |fields|
    ensures rec.Keys == set p | p in props
    decreases |props|
  {
    if props == [] then map[]
    else
      var n := |props| - 1;
      var rec := RecordOf(fields, props[..n]);
      assert forall p :: p in props <==> p in props[..n] || p == props[n];
      rec[props[n] := fields[n]]
  }

  /** The non-empty lines, in their original order. */
  function NonEmpty(lines: seq<string>): (kept: seq<string>)
    ensures |kept| <= |lines|
    ensures forall k :: 0 <= k < |kept| ==> kept[k] != "" && kept[k] in lines
    decreases |lines|
  {
    if lines == [] then []
    else
      var n := |lines| - 1;
      NonEmpty(lines[..n]) + (if lines[n] == "" then [] else [lines[n]])
  }

  /** The result of `parse_zfs_list_output`: records for the lines up to the first short one. */
  function ParseLines(lines: seq<string>, props: seq<string>): (r: Result<seq<Record>, ParseError>)
    ensures r.Success? ==> forall k :: 0 <= k < |r.value| ==> r.value[k].Keys == set p | p in props
    ensures r.Failure? ==> r.error.line < |lines|
    decreases |lines|
  {
    if lines == [] then Success([])
    else
      var n := |lines| - 1;
      match ParseLines(lines[..n], props)
      case Failure(e) => Failure(e)
      case Success(recs) =>
        if lines[n] == "" then Success(recs)
        else
          var fields := Split(lines[n], TAB);
          if |fields| < |props| then Failure(ShortLine(n))
          else Success(recs + [RecordOf(fields, props)])
  }

  /** A line the parser accepts: empty, or with at least one field per property. */
  predicate LineFits(line: string, props: seq<string>) {
    line == "" || |Split(line, TAB)| >= |props|
  }

  /**
   * `parse_zfs_list_output`: skips empty lines, splits the others on tab and maps
   * the i-th property to the i-th field; the first line with too few fields raises.
   */
  method ParseZfsListOutput(lines: seq<string>, props: seq<string>) returns (r: Result<seq<Record>, ParseError>)
    ensures r == ParseLines(lines, props)
  {
    var filesystems: seq<Record> := [];
    var j := 0;
    while j < |lines|
      invariant 0 <= j <= |lines|
      invariant ParseLines(lines[..j], props) == Success(filesystems)
    {
      assert lines[..j + 1][..j] == lines[..j];
      if lines[j] != "" {
        var line := Split(lines[j], TAB);
        var current: Record := map[];
        var i := 0;
        while i < |props|
          invariant 0 <= i <= |props|
          invariant i <= |line| && current == RecordOf(line, props[..i])
        {
          if i >= |line| {
            assert lines[..j + 1][..j] == lines[..j];
            FailureSticks(lines, props, j + 1);
            return Failure(ShortLine(j));
          }
          assert props[..i + 1][..i] == props[..i];
          current := current[props[i] := line[i]];
          i := i + 1;
        }
        assert props[..|props|] == props;
        filesystems := filesystems + [current];
      }
      j := j + 1;
    }
    assert lines[..|lines|] == lines;
    return Success(filesystems);
  }

  /** Once a prefix fails, the whole parse fails with the same error. */
  lemma {:induction false} FailureSticks(lines: seq<string>, props: seq<string>, m: nat)
    requires m <= |lines| && ParseLines(lines[..m], props).Failure?
    ensures ParseLines(lines, props) == ParseLines(lines[..m], props)
    decreases |lines|
  {
    if m < |lines| {
      var n := |lines| - 1;
      assert lines[..n][..m] == lines[..m];
      FailureSticks(lines[..n], props, m);
    } else {
      assert lines[..m] == lines;
    }
  }

  /** Dropping empty lines keeps every other line, as often as it occurs. */
  lemma {:induction false} NonEmptyMultiset(lines: seq<string>)
    ensures multiset(NonEmpty(lines)) == multiset(lines)["" := 0]
    decreases |lines|
  {
    if lines != [] {
      var n := |lines| - 1;
      NonEmptyMultiset(lines[..n]);
      assert lines == lines[..n] + [lines[n]];
    }
  }

  /** Dropping empty lines keeps the order: it distributes over concatenation. */
  lemma {:induction false} NonEmptyAppend(a: seq<string>, b: seq<string>)
    ensures NonEmpty(a + b) == NonEmpty(a) + NonEmpty(b)
    decreases |b|
  {
    if b == [] {
      assert a + b == a;
    } else {
      var n := |b| - 1;
      NonEmptyAppend(a, b[..n]);
      assert (a + b)[..|a + b| - 1] == a + b[..n];
    }
  }

  /** The parse succeeds exactly when every non-empty line has enough fields. */
  lemma {:induction false} ParseLinesSucceeds(lines: seq<string>, props: seq<string>)
    ensures ParseLines(lines, props).Success? <==> forall i :: 0 <= i < |lines| ==> LineFits(lines[i], props)
    decreases |lines|
  {
    if lines != [] {
      var n := |lines| - 1;
      ParseLinesSucceeds(lines[..n], props);
      assert forall i :: 0 <= i < n ==> lines[..n][i] == lines[i];
    }
  }

  /**
   * A failure names the first line with too few fields: it is non-empty, it is short,
   * and every line before it fits.
   */
  lemma {:induction false} ParseLinesFailure(lines: seq<string>, props: seq<string>)
    requires ParseLines(lines, props).Failure?
    ensures var i := ParseLines(lines, props).error.line;
      i < |lines| && lines[i] != "" && |Split(lines[i], TAB)| < |props| &&
      forall j :: 0 <= j < i ==> LineFits(lines[j], props)
    decreases |lines|
  {
    var n := |lines| - 1;
    if ParseLines(lines[..n], props).Failure? {
      ParseLinesFailure(lines[..n], props);
    } else {
      ParseLinesSucceeds(lines[..n], props);
      assert forall i :: 0 <= i < n ==> lines[..n][i] == lines[i];
    }
  }

  /**
   * On success there is one record per non-empty line, in input order, and record k
   * maps the properties to the fields of the k-th non-empty line.
   */
  lemma {:induction false} ParseLinesRecords(lines: seq<string>, props: seq<string>)
    requires ParseLines(lines, props).Success?
    ensures |ParseLines(lines, props).value| == |NonEmpty(lines)|
    ensures forall k :: 0 <= k < |NonEmpty(lines)| ==>
      |Split(NonEmpty(lines)[k], TAB)| >= |props| &&
      ParseLines(lines, props).value[k] == RecordOf(Split(NonEmpty(lines)[k], TAB), props)
    decreases |lines|
  {
    if lines != [] {
      var n := |lines| - 1;
      ParseLinesRecords(lines[..n], props);
    }
  }

  /**
   * `record[props[i]]` is the i-th field whenever `props[i]` is not named again later
   * (in particular for every property when the names are distinct); surplus fields
   * are ignored.
   */
  lemma {:induction false} RecordOfField(fields: seq<string>, props: seq<string>, i: nat)
    requires i < |props| <= |fields|
    requires forall j :: i < j < |props| ==> props[j] != props[i]
    ensures RecordOf(fields, props)[props[i]] == fields[i]
    decreases |props|
  {
    var n := |props| - 1;
    if i < n {
      RecordOfField(fields, props[..n], i);
    }
  }
}
