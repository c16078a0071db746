/**
 * The `Gtk.TreeStore` the program fills, and `build_treestore`: a single pass over
 * the parsed records that appends each filesystem as a root and each snapshot as
 * the next child of the most recent filesystem.
 */
module Store {
  import opened Wrappers
  import opened Text
  import opened Listing
  import opened Columns

  /** A root row with its child rows, in insertion order. */
  datatype Entry = Entry(row: seq<Cell>, children: seq<seq<Cell>>)

  /** A `Gtk.TreeIter`: a root, or a child of a root. */
  datatype Iter = RootIter(index: nat) | ChildIter(parent: nat, index: nat)

  predicate EntryConforms(e: Entry, cols: seq<ColumnType>) {
    Conforms(e.row, cols) && forall c :: 0 <= c < |e.children| ==> Conforms(e.children[c], cols)
  }

  /** The tree store: fixed column types and a sequence of roots, each with its children. */
  class TreeStore {
    const columns: seq<ColumnType>
    var roots: seq<Entry>

    /** Every row in the store has the store's column types. */
    ghost predicate Valid()
      reads this
    {
      forall k :: 0 <= k < |roots| ==> EntryConforms(roots[k], columns)
    }

    /** `Gtk.TreeStore.new(cols)`. */
    constructor (columns: seq<ColumnType>)
      ensures this.columns == columns && roots == [] && Valid()
    {
      this.columns := columns;
      roots := [];
    }

    /** `store.append(parent, row)`: a new last root, or a new last child of `parent`. */
    method Append(parent: Option<Iter>, row: seq<Cell>) returns (it: Iter)
      requires Valid() && Conforms(row, columns)
      requires parent.Some? ==> parent.value.RootIter? && parent.value.index < |roots|
      modifies this
      ensures Valid()
      ensures parent.None? ==> roots == old(roots) + [Entry(row, [])] && it == RootIter(|old(roots)|)
      ensures parent.Some? ==>
        var k := parent.value.index;
        roots == old(roots)[k := Entry(old(roots)[k].row, old(roots)[k].children + [row])] &&
        it == ChildIter(k, |old(roots)[k].children|)
    {
      if parent.None? {
        it := RootIter(|roots|);
        roots := roots + [Entry(row, [])];
      } else {
        var k := parent.value.index;
        var e := roots[k];
        it := ChildIter(k, |e.children|);
        roots := roots[k := Entry(e.row, e.children + [row])];
      }
    }
  }

  const FILESYSTEM: string := "filesystem"
  const SNAPSHOT: string := "snapshot"

  /** A record reduced to what the hierarchy needs: its `type` field and its row. */
  datatype Item = Item(kind: string, row: seq<Cell>)

  function SnapshotItems(children: seq<seq<Cell>>): (items: seq<Item>)
    ensures |items| == |children|
    decreases |children|
  {
    if children == [] then []
    else SnapshotItems(children[..|children| - 1]) + [Item(SNAPSHOT, children[|children| - 1])]
  }

  /** The forest read depth-first: each root as a filesystem item, then its children as snapshots. */
  function Preorder(roots: seq<Entry>): seq<Item>
    decreases |roots|
  {
    if roots == [] then []
    else
      var e := roots[|roots| - 1];
      Preorder(roots[..|roots| - 1]) + [Item(FILESYSTEM, e.row)] + SnapshotItems(e.children)
  }

  /** The filesystem and snapshot items, in order; every other type is dropped. */
  function Relevant(items: seq<Item>): (kept: seq<Item>)
    ensures |kept| <= |items|
    decreases |items|
  {
    if items == [] then []
    else
      var x := items[|items| - 1];
      Relevant(items[..|items| - 1]) + (if x.kind == FILESYSTEM || x.kind == SNAPSHOT then [x] else [])
  }

  predicate HasFilesystem(items: seq<Item>) {
    exists k :: 0 <= k < |items| && items[k].kind == FILESYSTEM
  }

  /** Every snapshot comes after some filesystem. */
  predicate NoOrphan(items: seq<Item>) {
    forall i :: 0 <= i < |items| && items[i].kind == SNAPSHOT ==> HasFilesystem(items[..i])
  }

  /**
   * The errors `build_treestore` stops at. At start-up the process exits on each; in a
   * refresh the exception escapes the button handler and the view keeps its old model.
   */
  datatype BuildError =
    | NoFilesystems                           // the listing was empty
    | TooFewFields(line: nat)                 // IndexError while parsing that line
    | BadField(record: nat, error: RowError)  // ValueError building that record's row
    | Orphan(record: nat)                     // a snapshot with `parent` still unbound

  predicate Complete(records: seq<Record>, props: seq<string>) {
    forall k :: 0 <= k < |records| ==> HasProps(records[k], props) && "type" in records[k]
  }

  /** One record as the loop of `build_treestore` meets it: its `type`, and its row or the row's error. */
  datatype Step = Step(kind: string, row: Result<seq<Cell>, RowError>)

  function StepsOf(records: seq<Record>, props: seq<string>, fmt: Formatters): (steps: seq<Step>)
    requires Complete(records, props)
    ensures |steps| == |records|
    ensures forall k :: 0 <= k < |records| ==> steps[k] == Step(records[k]["type"], RowOf(records[k], props, fmt))
  {
    seq(|records|, k requires 0 <= k < |records| => Step(records[k]["type"], RowOf(records[k], props, fmt)))
  }

  /** The items of the steps, or the first step whose row cannot be built. */
  function ItemsFrom(steps: seq<Step>): (r: Result<seq<Item>, BuildError>)
    ensures r.Success? <==> forall k :: 0 <= k < |steps| ==> steps[k].row.Success?
    ensures r.Success? ==> |r.value| == |steps|
    ensures r.Success? ==> forall k :: 0 <= k < |steps| ==> r.value[k] == Item(steps[k].kind, steps[k].row.value)
    ensures r.Failure? ==> r.error.BadField? && r.error.record < |steps|
    decreases |steps|
  {
    if steps == [] then Success([])
    else
      var n := |steps| - 1;
      match ItemsFrom(steps[..n])
      case Failure(e) => Failure(e)
      case Success(items) =>
        match steps[n].row
        case Failure(e) => Failure(BadField(n, e))
        case Success(row) => Success(items + [Item(steps[n].kind, row)])
  }

  /** The items of the records, or the first record whose row cannot be built. */
  function ItemsOf(records: seq<Record>, props: seq<string>, fmt: Formatters): Result<seq<Item>, BuildError>
    requires Complete(records, props)
  {
    ItemsFrom(StepsOf(records, props, fmt))
  }

  /** The records of a listing, with the `type` property added as `build_treestore` does. */
  function Records(output: string, props: seq<string>): (r: Result<seq<Record>, ParseError>)
    ensures r.Failure? ==> r.error.line < |Split(output, NEWLINE)|
  {
    ParseLines(Split(output, NEWLINE), props + ["type"])
  }

  lemma RecordsComplete(output: string, props: seq<string>)
    requires Records(output, props).Success?
    ensures Complete(Records(output, props).value, props)
  {
    var recs := Records(output, props).value;
    forall k | 0 <= k < |recs| ensures HasProps(recs[k], props) && "type" in recs[k] {
      assert recs[k].Keys == set p | p in props + ["type"];
      assert forall i :: 0 <= i < |props| ==> (props + ["type"])[i] == props[i];
      assert (props + ["type"])[|props|] == "type";
    }
  }

  lemma PreorderAddRoot(roots: seq<Entry>, row: seq<Cell>)
    ensures Preorder(roots + [Entry(row, [])]) == Preorder(roots) + [Item(FILESYSTEM, row)]
  {
    assert (roots + [Entry(row, [])])[..|roots|] == roots;
  }

  lemma PreorderAddChild(roots: seq<Entry>, row: seq<Cell>)
    requires roots != []
    ensures var k := |roots| - 1;
      Preorder(roots[k := Entry(roots[k].row, roots[k].children + [row])]) == Preorder(roots) + [Item(SNAPSHOT, row)]
  {
    var k := |roots| - 1;
    var e := roots[k];
    var grown := roots[k := Entry(e.row, e.children + [row])];
    assert grown[..k] == roots[..k];
    assert (e.children + [row])[..|e.children|] == e.children;
  }

  /** What one more item does to the relevant items, to orphan-freedom and to `HasFilesystem`. */
  lemma StepFacts(items: seq<Item>, item: Item)
    ensures Relevant(items + [item]) ==
      Relevant(items) + if item.kind == FILESYSTEM || item.kind == SNAPSHOT then [item] else []
    ensures HasFilesystem(items + [item]) <==> HasFilesystem(items) || item.kind == FILESYSTEM
    ensures NoOrphan(items) && (item.kind == SNAPSHOT ==> HasFilesystem(items)) ==> NoOrphan(items + [item])
  {
    var grown := items + [item];
    assert grown[..|items|] == items;
    if HasFilesystem(items) {
      var k :| 0 <= k < |items| && items[k].kind == FILESYSTEM;
      assert grown[k] == items[k];
    }
    if item.kind == FILESYSTEM {
      assert grown[|items|] == item;
    }
    if HasFilesystem(grown) {
      var k :| 0 <= k < |grown| && grown[k].kind == FILESYSTEM;
      if k < |items| { assert items[k] == grown[k]; }
    }
    if NoOrphan(items) && (item.kind == SNAPSHOT ==> HasFilesystem(items)) {
      forall i | 0 <= i < |grown| && grown[i].kind == SNAPSHOT ensures HasFilesystem(grown[..i]) {
        if i < |items| {
          assert grown[..i] == items[..i];
        } else {
          assert grown[..i] == items;
        }
      }
    }
  }

  /** Two ways an orphan shows up in the items: a snapshot with no filesystem before it, or an orphan earlier. */
  lemma OrphanFacts(items: seq<Item>, item: Item)
    ensures item.kind == SNAPSHOT && !HasFilesystem(items) ==> !NoOrphan(items + [item])
    ensures NoOrphan(items + [item]) ==> NoOrphan(items)
  {
    var grown := items + [item];
    assert grown[..|items|] == items;
    if NoOrphan(grown) {
      forall i | 0 <= i < |items| && items[i].kind == SNAPSHOT ensures HasFilesystem(items[..i]) {
        assert grown[i] == items[i] && grown[..i] == items[..i];
      }
    }
  }

  /**
   * One step of the hierarchy on the roots built so far: a filesystem becomes a new
   * root (and the current parent), a snapshot the next child of the latest root, and
   * any other type is dropped. A snapshot before any filesystem has no parent (`None`).
   */
  function Place(roots: seq<Entry>, item: Item): (r: Option<seq<Entry>>)
    ensures r.None? <==> item.kind == SNAPSHOT && roots == []
    ensures r.Some? && item.kind == FILESYSTEM ==> |r.value| == |roots| + 1 && r.value[..|roots|] == roots
    ensures r.Some? && item.kind == SNAPSHOT ==> |r.value| == |roots| && r.value[..|roots| - 1] == roots[..|roots| - 1]
    ensures r.Some? && item.kind != FILESYSTEM && item.kind != SNAPSHOT ==> r.value == roots
  {
    if item.kind == FILESYSTEM then Some(roots + [Entry(item.row, [])])
    else if item.kind == SNAPSHOT then
      if roots == [] then None
      else
        var k := |roots| - 1;
        Some(roots[k := Entry(roots[k].row, roots[k].children + [item.row])])
    else Some(roots)
  }

  /** The roots `build_treestore` builds from the steps, or the first error it stops at. */
  function BuildFrom(steps: seq<Step>): (r: Result<seq<Entry>, BuildError>)
    ensures r.Failure? ==> (r.error.BadField? || r.error.Orphan?) && r.error.record < |steps|
    decreases |steps|
  {
    if steps == [] then Success([])
    else
      var n := |steps| - 1;
      match BuildFrom(steps[..n])
      case Failure(e) => Failure(e)
      case Success(roots) =>
        match steps[n].row
        case Failure(e) => Failure(BadField(n, e))
        case Success(row) =>
          match Place(roots, Item(steps[n].kind, row))
          case None => Failure(Orphan(n))
          case Some(grown) => Success(grown)
  }

  /** The roots `build_treestore` builds from the records, or the first error it stops at. */
  function Build(records: seq<Record>, props: seq<string>, fmt: Formatters): (r: Result<seq<Entry>, BuildError>)
    requires Complete(records, props)
    ensures r.Failure? ==> (r.error.BadField? || r.error.Orphan?) && r.error.record < |records|
  {
    BuildFrom(StepsOf(records, props, fmt))
  }

  /**
   * What `build_treestore` ends with on the decoded output: `NoFilesystems` for empty
   * output, `TooFewFields` for the first short line, else the roots or error of `Build`.
   */
  function BuildResult(output: string, props: seq<string>, fmt: Formatters): (r: Result<seq<Entry>, BuildError>)
    ensures r == Failure(NoFilesystems) <==> output == ""
    ensures r.Failure? && r.error.TooFewFields? <==> output != "" && Records(output, props).Failure?
  {
    if output == "" then Failure(NoFilesystems)
    else
      match Records(output, props)
      case Failure(e) => Failure(TooFewFields(e.line))
      case Success(recs) =>
        RecordsComplete(output, props);
        Build(recs, props, fmt)
  }

  /** `BuildFrom` on one more step. */
  lemma BuildStep(steps: seq<Step>, i: nat)
    requires i < |steps| && BuildFrom(steps[..i]).Success?
    ensures BuildFrom(steps[..i + 1]) ==
      match steps[i].row
      case Failure(e) => Failure(BadField(i, e))
      case Success(row) =>
        match Place(BuildFrom(steps[..i]).value, Item(steps[i].kind, row))
        case None => Failure(Orphan(i))
        case Some(grown) => Success(grown)
  {
    assert steps[..i + 1][..i] == steps[..i];
  }

  /** Once a prefix of the steps fails, the whole build fails with that error. */
  lemma {:induction false} BuildFailureSticks(steps: seq<Step>, m: nat)
    requires m <= |steps| && BuildFrom(steps[..m]).Failure?
    ensures BuildFrom(steps) == BuildFrom(steps[..m])
    decreases |steps|
  {
    if m < |steps| {
      var n := |steps| - 1;
      assert steps[..n][..m] == steps[..m];
      BuildFailureSticks(steps[..n], m);
    } else {
      assert steps[..m] == steps;
    }
  }

  /** One `Place` step keeps the link between the forest and the items it was built from. */
  lemma PlaceStep(roots: seq<Entry>, items: seq<Item>, item: Item)
    requires Preorder(roots) == Relevant(items) && NoOrphan(items)
    requires roots == [] <==> !HasFilesystem(items)
    ensures Place(roots, item).Some? <==> NoOrphan(items + [item])
    ensures Place(roots, item).Some? ==>
      Preorder(Place(roots, item).value) == Relevant(items + [item]) &&
      (Place(roots, item).value == [] <==> !HasFilesystem(items + [item]))
  {
    StepFacts(items, item);
    OrphanFacts(items, item);
    if item.kind == FILESYSTEM {
      PreorderAddRoot(roots, item.row);
    } else if item.kind == SNAPSHOT && roots != [] {
      PreorderAddChild(roots, item.row);
    }
  }

  /**
   * The build succeeds exactly when every row can be built and no snapshot comes
   * before every filesystem; its forest read depth-first is then the filesystem and
   * snapshot items, and it has no root exactly when no item is a filesystem.
   */
  lemma {:induction false} BuildMatchesItems(steps: seq<Step>)
    ensures BuildFrom(steps).Success? <==> ItemsFrom(steps).Success? && NoOrphan(ItemsFrom(steps).value)
    ensures BuildFrom(steps).Success? ==>
      Preorder(BuildFrom(steps).value) == Relevant(ItemsFrom(steps).value) &&
      (BuildFrom(steps).value == [] <==> !HasFilesystem(ItemsFrom(steps).value))
    decreases |steps|
  {
    if steps != [] {
      var n := |steps| - 1;
      var pre := steps[..n];
      BuildMatchesItems(pre);
      var row := steps[n].row;
      if ItemsFrom(pre).Success? && row.Success? {
        var items := ItemsFrom(pre).value;
        var item := Item(steps[n].kind, row.value);
        OrphanFacts(items, item);
        if BuildFrom(pre).Success? {
          PlaceStep(BuildFrom(pre).value, items, item);
        }
      }
    }
  }

  /** A failed build stops at its error's step: the steps before it build, and that step fails. */
  lemma {:induction false} BuildFirstError(steps: seq<Step>)
    requires BuildFrom(steps).Failure?
    ensures var i := BuildFrom(steps).error.record;
      i < |steps| && BuildFrom(steps[..i]).Success? && BuildFrom(steps[..i + 1]) == BuildFrom(steps)
    decreases |steps|
  {
    var n := |steps| - 1;
    var pre := steps[..n];
    if BuildFrom(pre).Failure? {
      assert BuildFrom(steps) == BuildFrom(pre);
      BuildFirstError(pre);
      var i := BuildFrom(pre).error.record;
      PrefixOfPrefix(steps, n, i);
      PrefixOfPrefix(steps, n, i + 1);
    } else {
      assert BuildFrom(steps).error.record == n;
      assert steps[..n + 1] == steps;
    }
  }

  /**
   * What each error means: `BadField(i, e)` is the row error of step i, the first
   * step whose row fails, with no orphan before it; `Orphan(i)` is a snapshot whose
   * row builds but before which no step is a filesystem.
   */
  lemma {:induction false} BuildErrors(steps: seq<Step>, err: BuildError)
    requires BuildFrom(steps) == Failure(err)
    ensures (err.BadField? || err.Orphan?) && err.record < |steps|
    ensures ItemsFrom(steps[..err.record]).Success?
    ensures NoOrphan(ItemsFrom(steps[..err.record]).value)
    ensures err.BadField? ==> steps[err.record].row == Failure(err.error)
    ensures err.Orphan? ==>
      steps[err.record].kind == SNAPSHOT && steps[err.record].row.Success? &&
      !HasFilesystem(ItemsFrom(steps[..err.record]).value)
    decreases |steps|
  {
    var n := |steps| - 1;
    var pre := steps[..n];
    if BuildFrom(pre).Failure? {
      BuildErrors(pre, err);
      var i := err.record;
      assert pre[..i] == steps[..i] && pre[i] == steps[i];
    } else {
      assert err.record == n;
      BuildMatchesItems(pre);
    }
  }

  /** The `parent` iter after the roots so far: the last root, when there is one. */
  function LastRoot(roots: seq<Entry>): Option<Iter> {
    if roots == [] then None else Some(RootIter(|roots| - 1))
  }

  /**
   * The `if fs['type'] == ...` step of `build_treestore`: appends the row as a root or
   * as a child of `parent`, exactly as `Place` says, and reports an orphan (the unbound
   * `parent`) instead of appending.
   */
  method AddItem(store: TreeStore, parent: Option<Iter>, item: Item) returns (next: Option<Iter>, orphan: bool)
    requires store.Valid() && Conforms(item.row, store.columns)
    requires parent == LastRoot(store.roots)
    modifies store
    ensures store.Valid()
    ensures orphan <==> Place(old(store.roots), item).None?
    ensures !orphan ==> store.roots == Place(old(store.roots), item).value
    ensures orphan ==> store.roots == old(store.roots) && next == parent
    ensures next == LastRoot(store.roots)
  {
    next, orphan := parent, false;
    if item.kind == FILESYSTEM {
      var li := store.Append(None, item.row);
      next := Some(li);
    } else if item.kind == SNAPSHOT {
      if parent.None? {
        return parent, true;
      }
      var li := store.Append(parent, item.row);
    }
  }

  /**
   * The loop of `build_treestore` over the parsed records: builds each record's row,
   * then places it with `AddItem`; the store ends with the roots of `Build`, or the
   * loop stops at `Build`'s error.
   */
  method AddRecords(store: TreeStore, records: seq<Record>, props: seq<string>, fmt: Formatters)
    returns (err: Option<BuildError>)
    requires store.Valid() && store.roots == [] && store.columns == ColumnTypes(props)
    requires Complete(records, props)
    modifies store
    ensures store.Valid()
    ensures err.None? ==> Build(records, props, fmt) == Success(store.roots)
    ensures err.Some? ==> Build(records, props, fmt) == Failure(err.value)
  {
    ghost var steps := StepsOf(records, props, fmt);
    var parent: Option<Iter> := None;
    for i := 0 to |records|
      invariant store.Valid() && store.columns == ColumnTypes(props)
      invariant BuildFrom(steps[..i]) == Success(store.roots)
      invariant parent == LastRoot(store.roots)
    {
      var fs := records[i];
      BuildStep(steps, i);
      var row := BuildRow(fs, props, fmt);
      assert steps[i] == Step(fs["type"], row);
      if row.Failure? {
        BuildFailureSticks(steps, i + 1);
        return Some(BadField(i, row.error));
      }
      RowConforms(fs, props, fmt);
      var orphan;
      parent, orphan := AddItem(store, parent, Item(fs["type"], row.value));
      if orphan {
        BuildFailureSticks(steps, i + 1);
        return Some(Orphan(i));
      }
    }
    assert steps[..|steps|] == steps;
    return None;
  }

  /**
   * `build_treestore` from the decoded `zfs list` output on: split into lines, parse
   * with `type` appended, create the store with the column types of `props`, then
   * fill it.
   */
  method BuildTreestore(output: string, props: seq<string>, fmt: Formatters) returns (r: Result<TreeStore, BuildError>)
    ensures r.Success? <==> BuildResult(output, props, fmt).Success?
    ensures r.Success? ==>
      fresh(r.value) && r.value.Valid() && r.value.columns == ColumnTypes(props) &&
      r.value.roots == BuildResult(output, props, fmt).value
    ensures r.Failure? ==> r.error == BuildResult(output, props, fmt).error
    ensures r == Failure(NoFilesystems) <==> output == ""
    ensures output != "" && Records(output, props).Failure? ==>
      r == Failure(TooFewFields(Records(output, props).error.line))
    ensures r.Success? ==>
      output != "" && Records(output, props).Success? &&
      var recs := Records(output, props).value;
      Complete(recs, props) && Build(recs, props, fmt) == Success(r.value.roots) &&
      fresh(r.value) && r.value.Valid() && r.value.columns == ColumnTypes(props) &&
      ItemsOf(recs, props, fmt).Success? && NoOrphan(ItemsOf(recs, props, fmt).value) &&
      Preorder(r.value.roots) == Relevant(ItemsOf(recs, props, fmt).value)
    ensures r.Failure? && (r.error.BadField? || r.error.Orphan?) ==>
      output != "" && Records(output, props).Success? &&
      Complete(Records(output, props).value, props) &&
      Build(Records(output, props).value, props, fmt) == Failure(r.error)
  {
    var lines := Split(output, NEWLINE);
    if lines == [""] {
      JoinSplit(output, NEWLINE);
      return Failure(NoFilesystems);
    }
    assert output != "";
    var parsed := ParseZfsListOutput(lines, props + ["type"]);
    if parsed.Failure? {
      return Failure(TooFewFields(parsed.error.line));
    }
    var filesystems := parsed.value;
    RecordsComplete(output, props);
    var cols := StoreColumns(props);
    var store := new TreeStore(cols);
    var err := AddRecords(store, filesystems, props, fmt);
    if err.Some? {
      return Failure(err.value);
    }
    BuildMatchesItems(StepsOf(filesystems, props, fmt));
    return Success(store);
  }

  /** The rows of the filesystem items, in order. */
  function FsRows(items: seq<Item>): (rows: seq<seq<Cell>>)
    ensures |rows| <= |items|
    decreases |items|
  {
    if items == [] then []
    else
      var x := items[|items| - 1];
      FsRows(items[..|items| - 1]) + if x.kind == FILESYSTEM then [x.row] else []
  }

  function RootRows(roots: seq<Entry>): (rows: seq<seq<Cell>>)
    ensures |rows| == |roots|
    ensures forall k :: 0 <= k < |roots| ==> rows[k] == roots[k].row
  {
    seq(|roots|, k requires 0 <= k < |roots| => roots[k].row)
  }

  lemma {:induction false} FsRowsAppend(a: seq<Item>, b: seq<Item>)
    ensures FsRows(a + b) == FsRows(a) + FsRows(b)
    decreases |b|
  {
    if b == [] {
      assert a + b == a;
    } else {
      var n := |b| - 1;
      FsRowsAppend(a, b[..n]);
      assert (a + b)[..|a + b| - 1] == a + b[..n];
    }
  }

  lemma {:induction false} FsRowsOfSnapshots(children: seq<seq<Cell>>)
    ensures FsRows(SnapshotItems(children)) == []
    decreases |children|
  {
    if children != [] {
      FsRowsOfSnapshots(children[..|children| - 1]);
    }
  }

  /** Reading the forest depth-first, its filesystem items are its roots. */
  lemma {:induction false} PreorderFsRows(roots: seq<Entry>)
    ensures FsRows(Preorder(roots)) == RootRows(roots)
    decreases |roots|
  {
    if roots != [] {
      var n := |roots| - 1;
      var e := roots[n];
      PreorderFsRows(roots[..n]);
      FsRowsAppend(Preorder(roots[..n]) + [Item(FILESYSTEM, e.row)], SnapshotItems(e.children));
      FsRowsAppend(Preorder(roots[..n]), [Item(FILESYSTEM, e.row)]);
      FsRowsOfSnapshots(e.children);
      assert [Item(FILESYSTEM, e.row)][..0] == [];
      assert RootRows(roots) == RootRows(roots[..n]) + [e.row];
    }
  }

  /** Dropping the other types keeps every filesystem item. */
  lemma {:induction false} RelevantFsRows(items: seq<Item>)
    ensures FsRows(Relevant(items)) == FsRows(items)
    decreases |items|
  {
    if items != [] {
      var n := |items| - 1;
      var x := items[n];
      RelevantFsRows(items[..n]);
      FsRowsAppend(Relevant(items[..n]), if x.kind == FILESYSTEM || x.kind == SNAPSHOT then [x] else []);
      if x.kind == FILESYSTEM || x.kind == SNAPSHOT {
        assert [x][..0] == [];
      }
    }
  }

  /**
   * The hierarchy rule on its own: a filesystem starts a new root, a snapshot joins
   * the most recent root, and anything else (a snapshot with no root before it, any
   * other type) is ignored.
   */
  function Unflatten(items: seq<Item>): (roots: seq<Entry>)
    ensures |roots| <= |items|
    decreases |items|
  {
    if items == [] then [] else Attach(Unflatten(items[..|items| - 1]), items[|items| - 1])
  }

  /** One item of the hierarchy rule, on the roots so far. */
  function Attach(roots: seq<Entry>, x: Item): seq<Entry> {
    if x.kind == FILESYSTEM then roots + [Entry(x.row, [])]
    else if x.kind == SNAPSHOT && roots != [] then
      var e := roots[|roots| - 1];
      roots[|roots| - 1 := Entry(e.row, e.children + [x.row])]
    else roots
  }

  lemma KindsDiffer()
    ensures FILESYSTEM != SNAPSHOT
  {
    assert |FILESYSTEM| == 10 && |SNAPSHOT| == 8;
  }

  lemma UpdateLast<T>(init: seq<T>, a: T, b: T)
    ensures (init + [a])[|init| := b] == init + [b]
  {
  }

  lemma UnflattenSnoc(items: seq<Item>, x: Item)
    ensures Unflatten(items + [x]) == Attach(Unflatten(items), x)
  {
    assert (items + [x])[..|items|] == items;
  }

  lemma TakeLast<T>(s: seq<T>)
    requires s != []
    ensures s[..|s| - 1] + [s[|s| - 1]] == s
  {
  }

  /** A snapshot joins the last root. */
  lemma AttachSnapshot(init: seq<Entry>, row: seq<Cell>, kids: seq<seq<Cell>>, c: seq<Cell>)
    ensures Attach(init + [Entry(row, kids)], Item(SNAPSHOT, c)) == init + [Entry(row, kids + [c])]
  {
    KindsDiffer();
    var last := Entry(row, kids);
    assert (init + [last])[|init|] == last;
    UpdateLast(init, last, Entry(row, kids + [c]));
  }

  lemma {:induction false} UnflattenEntry(init: seq<Entry>, row: seq<Cell>, children: seq<seq<Cell>>)
    requires Unflatten(Preorder(init)) == init
    ensures Unflatten(Preorder(init) + [Item(FILESYSTEM, row)] + SnapshotItems(children)) ==
      init + [Entry(row, children)]
    decreases |children|
  {
    var head := Preorder(init) + [Item(FILESYSTEM, row)];
    if children == [] {
      assert head + SnapshotItems(children) == head;
      UnflattenSnoc(Preorder(init), Item(FILESYSTEM, row));
    } else {
      var m := |children| - 1;
      var kids := children[..m];
      UnflattenEntry(init, row, kids);
      var snap := Item(SNAPSHOT, children[m]);
      assert SnapshotItems(children) == SnapshotItems(kids) + [snap];
      AppendAssoc(head, SnapshotItems(kids), [snap]);
      UnflattenSnoc(head + SnapshotItems(kids), snap);
      AttachSnapshot(init, row, kids, children[m]);
      TakeLast(children);
    }
  }

  /** `Unflatten` inverts the depth-first reading: the reading determines the forest. */
  lemma {:induction false} UnflattenPreorder(roots: seq<Entry>)
    ensures Unflatten(Preorder(roots)) == roots
    decreases |roots|
  {
    if roots != [] {
      var n := |roots| - 1;
      var e := roots[n];
      UnflattenPreorder(roots[..n]);
      UnflattenEntry(roots[..n], e.row, e.children);
      assert Preorder(roots) == Preorder(roots[..n]) + [Item(FILESYSTEM, e.row)] + SnapshotItems(e.children);
      assert Entry(e.row, e.children) == e;
      TakeLast(roots);
    }
  }

  /** The hierarchy rule gives the same forest with or without the other types. */
  lemma {:induction false} UnflattenRelevant(items: seq<Item>)
    ensures Unflatten(Relevant(items)) == Unflatten(items)
    decreases |items|
  {
    if items != [] {
      var n := |items| - 1;
      var x := items[n];
      UnflattenRelevant(items[..n]);
      if x.kind == FILESYSTEM || x.kind == SNAPSHOT {
        UnflattenSnoc(Relevant(items[..n]), x);
      } else {
        assert Relevant(items) == Relevant(items[..n]);
      }
    }
  }

  /**
   * A forest whose depth-first reading is the filesystem and snapshot items (as
   * `BuildTreestore` promises) has exactly the filesystem rows as roots, in input
   * order, and is the forest of the hierarchy rule: every snapshot is the next child
   * of the nearest filesystem before it, and other types neither appear nor change
   * that parent.
   */
  lemma Hierarchy(roots: seq<Entry>, items: seq<Item>)
    requires Preorder(roots) == Relevant(items)
    ensures RootRows(roots) == FsRows(items)
    ensures roots == Unflatten(items)
  {
    PreorderFsRows(roots);
    RelevantFsRows(items);
    UnflattenPreorder(roots);
    UnflattenRelevant(items);
  }

  /** Two forests with the same depth-first reading are the same forest. */
  lemma PreorderInjective(a: seq<Entry>, b: seq<Entry>)
    requires Preorder(a) == Preorder(b)
    ensures a == b
  {
    UnflattenPreorder(a);
    UnflattenPreorder(b);
  }
}
