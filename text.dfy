/**
 * The string helpers the program takes from Python: `str.split` with an explicit
 * one-character separator, `'{}'.format(n)` (that is, `str(n)`) for integers, and
 * `int(s)` for the raw numeric fields of the listing.
 */
module Text {
  import opened Wrappers

  const TAB: char := '\t'
  const NEWLINE: char := '\n'
  const COMMA: char := ','

  /** `s.split(sep)`: the pieces between the occurrences of `sep`; never empty. */
  function Split(s: string, sep: char): (fields: seq<string>)
    ensures |fields| >= 1
    ensures forall k :: 0 <= k < |fields| ==> sep !in fields[k]
    decreases |s|
  {
    if s == [] then [""]
    else
      var rest := Split(s[1..], sep);
      if s[0] == sep then [""] + rest
      else [[s[0]] + rest[0]] + rest[1..]
  }

  /** `sep.join(fields)`. */
  function Join(fields: seq<string>, sep: char): string
    decreases |fields|
  {
    if fields == [] then ""
    else if |fields| == 1 then fields[0]
    else fields[0] + [sep] + Join(fields[1..], sep)
  }

  /** Joining the pieces again gives back the string that was split. */
  lemma {:induction false} JoinSplit(s: string, sep: char)
    ensures Join(Split(s, sep), sep) == s
    decreases |s|
  {
    if s != [] {
      JoinSplit(s[1..], sep);
      var rest := Split(s[1..], sep);
      if s[0] == sep {
        assert Split(s, sep) == [""] + rest;
        assert Join([""] + rest, sep) == [sep] + Join(rest, sep);
      } else {
        var fields := [[s[0]] + rest[0]] + rest[1..];
        assert Split(s, sep) == fields;
        if |rest| == 1 {
          assert Join(fields, sep) == [s[0]] + rest[0];
        } else {
          assert fields[1..] == rest[1..];
          assert Join(rest, sep) == rest[0] + [sep] + Join(rest[1..], sep);
          assert Join(fields, sep) == [s[0]] + rest[0] + [sep] + Join(rest[1..], sep);
        }
      }
    }
  }

  /** Splitting a join of separator-free pieces gives back the pieces. */
  lemma {:induction false} SplitJoin(fields: seq<string>, sep: char)
    requires |fields| >= 1
    requires forall k :: 0 <= k < |fields| ==> sep !in fields[k]
    ensures Split(Join(fields, sep), sep) == fields
    decreases |fields|, |fields[0]|
  {
    var f := fields[0];
    if f != [] {
      // peel the first character of the first piece
      var shorter := [f[1..]] + fields[1..];
      assert forall k :: 0 <= k < |shorter| ==> sep !in shorter[k] by {
        forall k | 0 <= k < |shorter| ensures sep !in shorter[k] {
          if k > 0 { assert shorter[k] == fields[k]; }
        }
      }
      SplitJoin(shorter, sep);
      assert Join(fields, sep) == [f[0]] + Join(shorter, sep) by {
        if |fields| == 1 {
          assert Join(shorter, sep) == f[1..];
        } else {
          assert shorter[1..] == fields[1..];
          assert Join(shorter, sep) == f[1..] + [sep] + Join(fields[1..], sep);
        }
      }
      var s := Join(fields, sep);
      assert s[1..] == Join(shorter, sep);
      assert s[0] == f[0] && f[0] != sep;
      assert Split(s, sep) == [[f[0]] + f[1..]] + fields[1..];
      assert [f[0]] + f[1..] == f;
      assert [f] + fields[1..] == fields;
    } else if |fields| > 1 {
      SplitJoin(fields[1..], sep);
      var s := Join(fields, sep);
      assert s == [sep] + Join(fields[1..], sep);
      assert s[1..] == Join(fields[1..], sep);
      assert fields == [""] + fields[1..];
    }
  }

  predicate IsDigit(ch: char) {
    '0' <= ch <= '9'
  }

  predicate AllDigits(s: string) {
    forall k :: 0 <= k < |s| ==> IsDigit(s[k])
  }

  /** The value of a string of decimal digits, most significant first. */
  function DigitsValue(s: string): nat
    requires AllDigits(s)
    decreases |s|
  {
    if s == [] then 0
    else 10 * DigitsValue(s[..|s| - 1]) + ((s[|s| - 1] as int) - ('0' as int))
  }

  /** `str(n)` for a natural number: its decimal digits without leading zeros. */
  function NatToString(n: nat): (s: string)
    ensures |s| >= 1 && AllDigits(s)
    ensures DigitsValue(s) == n
    ensures s[0] != '0' || s == "0"
  {
    var d := [('0' as int + n % 10) as char];
    if n < 10 then d else NatToString(n / 10) + d
  }

  /** `str(n)` for an integer: a minus sign, then the digits of the magnitude. */
  function IntToString(n: int): (s: string)
    ensures |s| >= 1
    ensures n < 0 <==> s[0] == '-'
  {
    if n < 0 then "-" + NatToString(-n) else NatToString(n)
  }

  /**
   * `int(s)` on the strings `zfs list -p` produces: an optional sign followed by
   * one or more decimal digits; anything else is Python's `ValueError` (`None`).
   */
  function ParseInt(s: string): (r: Option<int>)
    ensures r.Some? <==>
      |s| >= 1 && (AllDigits(s) || ((s[0] == '-' || s[0] == '+') && |s| >= 2 && AllDigits(s[1..])))
    ensures |s| >= 1 && AllDigits(s) ==> r == Some(DigitsValue(s))
    ensures |s| >= 2 && s[0] == '-' && AllDigits(s[1..]) ==> r == Some(-(DigitsValue(s[1..]) as int))
    ensures |s| >= 2 && s[0] == '+' && AllDigits(s[1..]) ==> r == Some(DigitsValue(s[1..]))
  {
    if |s| >= 1 && (s[0] == '-' || s[0] == '+') then
      var body := s[1..];
      if |body| >= 1 && AllDigits(body) then
        var v: int := DigitsValue(body);
        Some(if s[0] == '-' then -v else v)
      else None
    else if |s| >= 1 && AllDigits(s) then Some(DigitsValue(s))
    else None
  }

  /** `int(str(n)) == n`: printing an integer loses nothing. */
  lemma IntToStringRoundTrip(n: int)
    ensures ParseInt(IntToString(n)) == Some(n)
  {
    if n < 0 {
      var s := IntToString(n);
      assert s[1..] == NatToString(-n);
    } else {
      assert IntToString(n)[0] != '-' && IntToString(n)[0] != '+';
    }
  }

  /** Different integers print differently. */
  lemma IntToStringInjective(m: int, n: int)
    requires IntToString(m) == IntToString(n)
    ensures m == n
  {
    IntToStringRoundTrip(m);
    IntToStringRoundTrip(n);
  }
}
