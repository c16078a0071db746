/**
 * The two parts of `Gui` the model keeps: the store slot each view column shows and
 * sorts by (the `_index` loop of `Gui.__init__`), and `refresh_tree`, which notes
 * the expanded root rows by their first value, rebuilds the store and expands the
 * rows again.
 */
module View {
  import opened Wrappers
  import opened Columns
  import opened Store

  /** One `Gtk.TreeViewColumn`: its title, the slot it shows, the slot it sorts by, its alignment. */
  datatype ViewColumn = ViewColumn(title: string, textSlot: nat, sortSlot: nat, rightAligned: bool)

  /** The slot a column sorts by: the float slot after its text for a dual property, else its text. */
  function SortSlot(props: seq<string>, j: nat): (s: nat)
    requires j < |props|
    ensures Slot(props, j) <= s < Slot(props, j + 1)
    ensures s != Slot(props, j) <==> IsDual(props[j])
  {
    SlotStep(props, j);
    Slot(props, j) + if IsDual(props[j]) then 1 else 0
  }

  /** The properties `Gui.__init__` shows left-aligned; every other column is right-aligned. */
  predicate LeftAligned(p: string) {
    p == "name" || p == "mountpoint" || p == "creation"
  }

  /** The column `Gui.__init__` creates for property j. */
  function ColumnFor(props: seq<string>, j: nat): (c: ViewColumn)
    requires j < |props|
    ensures Slot(props, j) == c.textSlot <= c.sortSlot < Slot(props, j + 1)
  {
    ViewColumn(props[j], Slot(props, j), SortSlot(props, j), !LeftAligned(props[j]))
  }

  /** The columns `Gui.__init__` has created once it has seen the first j properties. */
  function ColumnsUpTo(props: seq<string>, j: nat): (cols: seq<ViewColumn>)
    requires j <= |props|
    ensures |cols| == j
  {
    if j == 0 then [] else ColumnsUpTo(props, j - 1) + [ColumnFor(props, j - 1)]
  }

  /** Column k of the first j columns is the one made for property k. */
  lemma {:induction false} ColumnsUpToAt(props: seq<string>, j: nat, k: nat)
    requires k < j <= |props|
    ensures ColumnsUpTo(props, j)[k] == ColumnFor(props, k)
    decreases j
  {
    var pre := ColumnsUpTo(props, j - 1);
    assert ColumnsUpTo(props, j) == pre + [ColumnFor(props, j - 1)];
    if k < j - 1 {
      ColumnsUpToAt(props, j - 1, k);
      assert (pre + [ColumnFor(props, j - 1)])[k] == pre[k];
    }
  }

  /** The columns `Gui.__init__` creates for `props`, in order. */
  method ViewColumns(props: seq<string>) returns (cols: seq<ViewColumn>)
    ensures |cols| == |props|
    ensures forall j :: 0 <= j < |props| ==>
      cols[j] == ViewColumn(props[j], Slot(props, j), SortSlot(props, j), !LeftAligned(props[j]))
  {
    var index := 0;
    cols := [];
    for j := 0 to |props|
      invariant index == Slot(props, j) && cols == ColumnsUpTo(props, j)
    {
      var c := props[j];
      var right := !LeftAligned(c);
      var text := index;
      var sort: nat;
      if IsDual(c) {
        sort := index + 1;
        index := index + 1;
      } else {
        sort := index;
      }
      assert ViewColumn(c, text, sort, right) == ColumnFor(props, j);
      cols := cols + [ViewColumn(c, text, sort, right)];
      index := index + 1;
      SlotStep(props, j);
    }
    forall j | 0 <= j < |props|
      ensures cols[j] == ColumnFor(props, j)
    {
      ColumnsUpToAt(props, |props|, j);
    }
  }

  /**
   * The view and the store agree: every column shows a string slot of the store, and
   * sorts by the float slot right after it for a dual property, or by that same
   * string slot otherwise.
   */
  lemma {:induction false} ViewMatchesStore(props: seq<string>, j: nat)
    requires j < |props|
    ensures Slot(props, j) < |ColumnTypes(props)| && SortSlot(props, j) < |ColumnTypes(props)|
    ensures ColumnTypes(props)[Slot(props, j)] == StrColumn
    ensures ColumnTypes(props)[SortSlot(props, j)] == if IsDual(props[j]) then FloatColumn else StrColumn
    decreases |props|
  {
    var n := |props| - 1;
    var pre := props[..n];
    var cols := ColumnTypes(pre);
    assert ColumnTypes(props) == cols + PropColumns(props[n]);
    if j < n {
      PrefixOfPrefix(props, n, j);
      assert Slot(props, j) == Slot(pre, j) && pre[j] == props[j];
      ViewMatchesStore(pre, j);
    } else {
      assert Slot(props, j) == |cols|;
    }
  }

  predicate RowsNonEmpty(roots: seq<Entry>) {
    forall k :: 0 <= k < |roots| ==> |roots[k].row| > 0
  }

  /** `row[0]` of each root row: the first property's value, the key expansion is kept by. */
  function RootKeys(roots: seq<Entry>): (keys: seq<Cell>)
    requires RowsNonEmpty(roots)
    ensures |keys| == |roots|
    ensures forall k :: 0 <= k < |roots| ==> keys[k] == roots[k].row[0]
  {
    seq(|roots|, k requires 0 <= k < |roots| => roots[k].row[0])
  }

  /**
   * On a store built for `props`, every root has a key, and every key is the text
   * cell of the first property: the value `row[0] in expanded_rows` compares.
   */
  lemma RootKeysAreText(s: TreeStore, props: seq<string>)
    requires s.Valid() && s.columns == ColumnTypes(props) && |props| > 0
    ensures RowsNonEmpty(s.roots)
    ensures forall k :: 0 <= k < |s.roots| ==> RootKeys(s.roots)[k].Str?
  {
    ViewMatchesStore(props, 0);
  }

  /** `expanded_rows`: the keys of the root paths the view reports expanded, in order. */
  function Captured(keys: seq<Cell>, isExpanded: nat -> bool): (c: seq<Cell>)
    ensures |c| <= |keys|
    decreases |keys|
  {
    if keys == [] then []
    else
      var n := |keys| - 1;
      Captured(keys[..n], isExpanded) + if isExpanded(n) then [keys[n]] else []
  }

  /** The root paths `expand_row` is called on: those whose key was captured, in order. */
  function ExpandTargets(keys: seq<Cell>, captured: seq<Cell>): (t: seq<nat>)
    ensures |t| <= |keys|
    decreases |keys|
  {
    if keys == [] then []
    else
      var n := |keys| - 1;
      ExpandTargets(keys[..n], captured) + if keys[n] in captured then [n] else []
  }

  /** A key is captured exactly when some expanded root path carries it. */
  lemma {:induction false} CapturedMembers(keys: seq<Cell>, isExpanded: nat -> bool, c: Cell)
    ensures c in Captured(keys, isExpanded) <==>
      exists i :: 0 <= i < |keys| && isExpanded(i) && keys[i] == c
    decreases |keys|
  {
    if keys != [] {
      var n := |keys| - 1;
      CapturedMembers(keys[..n], isExpanded, c);
      assert forall i :: 0 <= i < n ==> keys[..n][i] == keys[i];
    }
  }

  /** Path i is expanded exactly when it is a root path whose key was captured. */
  lemma {:induction false} ExpandTargetsMembers(keys: seq<Cell>, captured: seq<Cell>, i: nat)
    ensures i in ExpandTargets(keys, captured) <==> i < |keys| && keys[i] in captured
    decreases |keys|
  {
    if keys != [] {
      var n := |keys| - 1;
      var prefix := ExpandTargets(keys[..n], captured);
      var tail: seq<nat> := if keys[n] in captured then [n] else [];
      assert ExpandTargets(keys, captured) == prefix + tail;
      ExpandTargetsMembers(keys[..n], captured, i);
      if i < n {
        assert keys[..n][i] == keys[i];
      }
      assert i in prefix + tail <==> i in prefix || i in tail;
    }
  }

  /** The expanded paths are root paths, each at most once and in increasing order. */
  lemma {:induction false} ExpandTargetsOrdered(keys: seq<Cell>, captured: seq<Cell>)
    ensures forall a :: 0 <= a < |ExpandTargets(keys, captured)| ==> ExpandTargets(keys, captured)[a] < |keys|
    ensures forall a, b :: 0 <= a < b < |ExpandTargets(keys, captured)| ==>
      ExpandTargets(keys, captured)[a] < ExpandTargets(keys, captured)[b]
    decreases |keys|
  {
    if keys != [] {
      var n := |keys| - 1;
      var prefix := ExpandTargets(keys[..n], captured);
      var tail: seq<nat> := if keys[n] in captured then [n] else [];
      var all := ExpandTargets(keys, captured);
      assert all == prefix + tail;
      ExpandTargetsOrdered(keys[..n], captured);
      assert forall a :: 0 <= a < |all| ==> all[a] == if a < |prefix| then prefix[a] else n;
    }
  }

  /**
   * Re-expanding the new roots by key: path i of the new roots is expanded exactly
   * when some expanded old root had the same key. A new root that only shares its
   * key with an old expanded one is expanded too.
   */
  lemma ReexpandByKey(oldKeys: seq<Cell>, newKeys: seq<Cell>, isExpanded: nat -> bool, i: nat)
    ensures i in ExpandTargets(newKeys, Captured(oldKeys, isExpanded)) <==>
      i < |newKeys| && exists j :: 0 <= j < |oldKeys| && isExpanded(j) && oldKeys[j] == newKeys[i]
  {
    ExpandTargetsMembers(newKeys, Captured(oldKeys, isExpanded), i);
    if i < |newKeys| {
      CapturedMembers(oldKeys, isExpanded, newKeys[i]);
    }
  }

  /**
   * As written, keys are captured from and re-applied to the same (old) roots: with
   * distinct keys this expands exactly the paths that were expanded before, whatever
   * the new listing holds.
   */
  lemma StaleReexpand(keys: seq<Cell>, isExpanded: nat -> bool, i: nat)
    requires forall a, b :: 0 <= a < b < |keys| ==> keys[a] != keys[b]
    ensures i in ExpandTargets(keys, Captured(keys, isExpanded)) <==> i < |keys| && isExpanded(i)
  {
    ReexpandByKey(keys, keys, isExpanded, i);
    if i < |keys| && i in ExpandTargets(keys, Captured(keys, isExpanded)) {
      var j :| 0 <= j < |keys| && isExpanded(j) && keys[j] == keys[i];
      assert j == i;
    }
  }

  /** The expansion state of the example below: only path 1 is expanded. */
  predicate OnlyPathOne(i: nat) {
    i == 1
  }

  /**
   * The refresh as written, on a concrete case: the old roots are tank and tank/a with
   * tank/a expanded; the new listing adds tank/0 between them. Path 1 (now tank/0) is
   * expanded, while re-expanding the new roots by key would expand path 2 (tank/a).
   */
  lemma StaleRefreshExample()
    ensures var oldKeys := [Str("tank"), Str("tank/a")];
      var newKeys := [Str("tank"), Str("tank/0"), Str("tank/a")];
      var captured := Captured(oldKeys, OnlyPathOne);
      captured == [Str("tank/a")] &&
      ExpandTargets(oldKeys, captured) == [1] && newKeys[1] !in captured &&
      ExpandTargets(newKeys, captured) == [2]
  {
    var tank, zero, a := Str("tank"), Str("tank/0"), Str("tank/a");
    assert tank != a && zero != a by {
      assert |tank.s| == 4 && |zero.s| == 6 && |a.s| == 6 && zero.s[5] != a.s[5];
    }
    var oldKeys := [tank, a];
    var newKeys := [tank, zero, a];
    var c := [a];
    assert tank !in c && zero !in c && a in c;
    assert oldKeys[..1] == [tank] && [tank][..0] == [];
    assert Captured([tank], OnlyPathOne) == [];
    assert Captured(oldKeys, OnlyPathOne) == c;
    assert ExpandTargets([tank], c) == [];
    assert ExpandTargets(oldKeys, c) == [1];
    assert newKeys[..2] == [tank, zero] && [tank, zero][..1] == [tank];
    assert ExpandTargets([tank, zero], c) == [];
    assert ExpandTargets(newKeys, c) == [2];
  }

  /** The first loop of `refresh_tree`: the keys of the expanded root paths, in order. */
  method CaptureExpanded(roots: seq<Entry>, isExpanded: nat -> bool) returns (captured: seq<Cell>)
    requires RowsNonEmpty(roots)
    ensures captured == Captured(RootKeys(roots), isExpanded)
  {
    var keys := RootKeys(roots);
    captured := [];
    for i := 0 to |roots|
      invariant captured == Captured(keys[..i], isExpanded)
    {
      assert keys[..i + 1][..i] == keys[..i];
      if isExpanded(i) {
        captured := captured + [roots[i].row[0]];
      }
    }
    assert keys[..|keys|] == keys;
  }

  /** The second loop of `refresh_tree`: the root paths whose key was captured, in order. */
  method ExpandPaths(roots: seq<Entry>, captured: seq<Cell>) returns (paths: seq<nat>)
    requires RowsNonEmpty(roots)
    ensures paths == ExpandTargets(RootKeys(roots), captured)
  {
    var keys := RootKeys(roots);
    paths := [];
    for i := 0 to |roots|
      invariant paths == ExpandTargets(keys[..i], captured)
    {
      assert keys[..i + 1][..i] == keys[..i];
      if roots[i].row[0] in captured {
        paths := paths + [i];
      }
    }
    assert keys[..|keys|] == keys;
  }

  /** The window's view of the store: the store it was built on, and the model it shows. */
  class Gui {
    const props: seq<string>
    const fmt: Formatters
    var store: TreeStore      // `self.store`
    var model: TreeStore      // the model `self.tview` shows
    var columns: seq<ViewColumn>

    ghost predicate Valid()
      reads this, store, model
    {
      |props| > 0 &&
      store.Valid() && store.columns == ColumnTypes(props) && RowsNonEmpty(store.roots) &&
      model.Valid() && model.columns == ColumnTypes(props) && RowsNonEmpty(model.roots)
    }

    /** `Gui.__init__` on the store `build_treestore` returned: the store, the view on it, its columns. */
    constructor (props: seq<string>, store: TreeStore, fmt: Formatters)
      requires |props| > 0 && store.Valid() && store.columns == ColumnTypes(props)
      ensures Valid() && this.props == props && this.fmt == fmt
      ensures this.store == store && model == store
      ensures |columns| == |props|
      ensures forall j :: 0 <= j < |props| ==>
        columns[j] == ViewColumn(props[j], Slot(props, j), SortSlot(props, j),
                                 !LeftAligned(props[j]))
    {
      RowsOfValidStore(store, props);
      this.props := props;
      this.fmt := fmt;
      this.store := store;
      this.model := store;
      var cols := ViewColumns(props);
      this.columns := cols;
    }

    static lemma RowsOfValidStore(s: TreeStore, props: seq<string>)
      requires |props| > 0 && s.Valid() && s.columns == ColumnTypes(props)
      ensures RowsNonEmpty(s.roots)
    {
      forall k | 0 <= k < |s.roots| ensures |s.roots[k].row| > 0 {
        assert EntryConforms(s.roots[k], s.columns);
      }
    }

    /**
     * `refresh_tree` as written: notes `row[0]` of every root of `self.store` whose
     * path the view reports expanded, rebuilds the store and shows it, then expands
     * the paths of the roots of `self.store` (still the first store) whose key was
     * noted. Returns the noted keys and the paths passed to `expand_row`.
     */
    method RefreshTree(output: string, isExpanded: nat -> bool) returns (captured: seq<Cell>, r: Result<seq<nat>, BuildError>)
      requires Valid()
      modifies this`model
      ensures Valid()
      ensures store == old(store) && store.roots == old(store.roots)
      ensures captured == Captured(RootKeys(store.roots), isExpanded)
      ensures r.Success? <==> BuildResult(output, props, fmt).Success?
      ensures r.Success? ==>
        fresh(model) && model.roots == BuildResult(output, props, fmt).value &&
        r.value == ExpandTargets(RootKeys(store.roots), captured)
      ensures r.Failure? ==> model == old(model) && r.error == BuildResult(output, props, fmt).error
    {
      captured := CaptureExpanded(store.roots, isExpanded);
      var built := BuildTreestore(output, props, fmt);
      if built.Failure? {
        return captured, Failure(built.error);
      }
      RowsOfValidStore(built.value, props);
      model := built.value;
      var paths := ExpandPaths(store.roots, captured);
      return captured, Success(paths);
    }

    /**
     * `refresh_tree` as evidently intended: notes the expanded roots of the model
     * shown, then expands the roots of the rebuilt store whose key was noted, and
     * keeps `self.store` on the rebuilt store.
     */
    method RefreshTreeFixed(output: string, isExpanded: nat -> bool) returns (captured: seq<Cell>, r: Result<seq<nat>, BuildError>)
      requires Valid()
      modifies this`model, this`store
      ensures Valid()
      ensures captured == Captured(RootKeys(old(model.roots)), isExpanded)
      ensures r.Success? <==> BuildResult(output, props, fmt).Success?
      ensures r.Success? ==>
        fresh(model) && store == model && model.roots == BuildResult(output, props, fmt).value &&
        r.value == ExpandTargets(RootKeys(model.roots), captured)
      ensures r.Failure? ==>
        model == old(model) && store == old(store) && r.error == BuildResult(output, props, fmt).error
    {
      captured := CaptureExpanded(model.roots, isExpanded);
      var built := BuildTreestore(output, props, fmt);
      if built.Failure? {
        return captured, Failure(built.error);
      }
      var treestore := built.value;
      RowsOfValidStore(treestore, props);
      model := treestore;
      store := treestore;
      var paths := ExpandPaths(treestore.roots, captured);
      return captured, Success(paths);
    }
  }
}
