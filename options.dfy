/**
 * The property list of the `-o` option, as the program's entry point prepares it:
 * split on commas, `name` put first when the list lacks it, then the three short
 * aliases replaced by the property names `zfs` reports them under.
 */
module Options {
  import opened Text

  /** The full name a short alias stands for; every other name is kept. */
  function Alias(p: string): string {
    if p == "avail" then "available"
    else if p == "refer" then "referenced"
    else if p == "ratio" then "compressratio"
    else p
  }

  /** One entry of an alias pass: `to if p == from else p`. */
  function Pass(p: string, from: string, to: string): string {
    if p == from then to else p
  }

  /** The three passes, one after the other, replace an entry by its alias. */
  lemma PassesAlias(p: string)
    ensures Pass(Pass(Pass(p, "avail", "available"), "refer", "referenced"), "ratio", "compressratio")
      == Alias(p)
  {
    assert |"available"| == 9 && |"referenced"| == 10 && |"refer"| == 5 && |"ratio"| == 5;
  }

  /**
   * `[to if p == from else p for p in props]`: entry by entry, `from` becomes `to`; no
   * `from` is left, and no name other than `to` is let in.
   */
  function Replace(props: seq<string>, from: string, to: string): (r: seq<string>)
    ensures |r| == |props|
    ensures forall i :: 0 <= i < |props| ==> r[i] == Pass(props[i], from, to)
    ensures from != to ==> from !in r
    ensures forall i :: 0 <= i < |r| ==> r[i] == to || r[i] in props
  {
    seq(|props|, i requires 0 <= i < |props| => Pass(props[i], from, to))
  }

  /** `name` prepended when the list lacks it. */
  function Named(raw: seq<string>): seq<string> {
    if "name" !in raw then ["name"] + raw else raw
  }

  /** The three alias passes, `avail`, then `refer`, then `ratio`. */
  function Aliased(props: seq<string>): seq<string> {
    Replace(Replace(Replace(props, "avail", "available"), "refer", "referenced"), "ratio", "compressratio")
  }

  /** Prepend `name` if the list lacks it, then the three alias passes. */
  function NormalizeProps(raw: seq<string>): (r: seq<string>)
    ensures |r| == |raw| + if "name" in raw then 0 else 1
  {
    Aliased(Named(raw))
  }

  /** The `-o` argument split on commas, then normalised. */
  function Normalize(arg: string): (r: seq<string>)
    ensures "name" in r
  {
    NormalizeNamesName(Split(arg, COMMA));
    NormalizeProps(Split(arg, COMMA))
  }

  /** The passes replace each entry by its alias, in place. */
  lemma AliasedAt(props: seq<string>)
    ensures |Aliased(props)| == |props|
    ensures forall i :: 0 <= i < |props| ==> Aliased(props)[i] == Alias(props[i])
  {
    forall i | 0 <= i < |props| ensures Aliased(props)[i] == Alias(props[i]) {
      PassesAlias(props[i]);
    }
  }

  /**
   * The result is the raw list, with `name` in front exactly when the raw list (before
   * aliasing) lacks it, and every entry replaced by its alias: order kept, no entry
   * dropped or merged, duplicates left in.
   */
  lemma NormalizeShape(raw: seq<string>)
    ensures var off := if "name" in raw then 0 else 1;
      |NormalizeProps(raw)| == |raw| + off &&
      (off == 1 ==> NormalizeProps(raw)[0] == "name") &&
      forall i :: 0 <= i < |raw| ==> NormalizeProps(raw)[i + off] == Alias(raw[i])
  {
    var named := Named(raw);
    var off := if "name" in raw then 0 else 1;
    AliasedAt(named);
    assert |named| == |raw| + off;
    assert forall i :: 0 <= i < |raw| ==> named[i + off] == raw[i];
    if off == 1 {
      assert named[0] == "name" && |"name"| == 4;
    }
  }

  /**
   * The `-o` argument is cut at every comma, the pieces joined with commas give it
   * back, and the normalised list is made of those pieces as `NormalizeShape` says.
   */
  lemma NormalizeSplit(arg: string)
    ensures var raw := Split(arg, COMMA);
      var off := if "name" in raw then 0 else 1;
      Join(raw, COMMA) == arg &&
      |Normalize(arg)| == |raw| + off &&
      (off == 1 ==> Normalize(arg)[0] == "name") &&
      forall i :: 0 <= i < |raw| ==> COMMA !in raw[i] && Normalize(arg)[i + off] == Alias(raw[i])
  {
    JoinSplit(arg, COMMA);
    NormalizeShape(Split(arg, COMMA));
  }

  /** The normalised list always names `name`. */
  lemma NormalizeNamesName(raw: seq<string>)
    ensures "name" in NormalizeProps(raw)
  {
    NormalizeShape(raw);
    if "name" in raw {
      var i :| 0 <= i < |raw| && raw[i] == "name";
      assert NormalizeProps(raw)[i] == Alias(raw[i]);
    } else {
      assert NormalizeProps(raw)[0] == "name";
    }
  }

  /** No short alias is left in the normalised list. */
  lemma NormalizeNoAlias(raw: seq<string>)
    ensures forall i :: 0 <= i < |NormalizeProps(raw)| ==>
      NormalizeProps(raw)[i] != "avail" && NormalizeProps(raw)[i] != "refer" &&
      NormalizeProps(raw)[i] != "ratio"
  {
    var named := Named(raw);
    var a := Replace(named, "avail", "available");
    var b := Replace(a, "refer", "referenced");
    assert |"available"| == 9 && |"referenced"| == 10 && |"compressratio"| == 13;
    assert "avail" !in a && "avail" !in b && "refer" !in b;
  }

  /**
   * `name` comes first exactly when the raw list lacks it or starts with it; a list
   * like `used,name` keeps `name` in second place.
   */
  lemma NormalizeNameFirst(raw: seq<string>)
    ensures |NormalizeProps(raw)| > 0
    ensures NormalizeProps(raw)[0] == "name" <==> "name" !in raw || raw[0] == "name"
  {
    NormalizeShape(raw);
    if "name" in raw {
      assert NormalizeProps(raw)[0] == Alias(raw[0]);
    }
  }
}
