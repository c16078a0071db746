# zfs-list-gtk, modelled in Dafny

`zfs-list-gtk.py` shows ZFS filesystems and their snapshots in a sortable GTK tree.
It runs `zfs list -Hrpt all -o <props>,type`, splits the tab-separated output into
records keyed by property name, and builds a two-level `Gtk.TreeStore`: each
filesystem is a root and each snapshot is a child of the most recent filesystem
listed before it, whatever other snapshots, volumes or bookmarks come in between. Size properties and `creation` take two store slots, a display string and
a float sort key.

This project models that data pipeline and proves properties of it:

- `units.dfy` (`Units`): `human_readable`, which picks the unit suffix and the number of decimals.
- `text.dfy` (`Text`): the Python string operations the pipeline relies on. These are `str.split`,
  `str(n)` for integers, and `int(s)`.
- `listing.dfy` (`Listing`): `parse_zfs_list_output`.
- `columns.dfy` (`Columns`): the store's column types and the row built for each record.
- `store.dfy` (`Store`): the `TreeStore` class, the hierarchy loop of `build_treestore`, and
  `build_treestore` itself, starting from the decoded command output.
- `view.dfy` (`View`): two parts of the `Gui` class. One is the slot each view column shows and sorts by.
  The other is `refresh_tree`, which notes the expanded rows, rebuilds the store and expands the rows again.
- `options.dfy` (`Options`): how the `-o` property list is normalised.
- `wrappers.dfy` (`Wrappers`): `Option` and `Result`, used for the program's exceptions.

Every loop of the modelled code is a Dafny `method` with its own loop. The loops of
`human_readable` and `parse_zfs_list_output`, the `cols` and `row` loops of
`build_treestore`, the column loop of `Gui.__init__` and the two loops of `refresh_tree`
are each proved equal to a specification function, and the lemmas beside it prove what
that function promises. The record loop of `build_treestore` is proved to end with the
roots or the error of `Store.Build`. Each refresh method is proved to show the roots of
`Store.BuildResult`, the whole of `build_treestore` as a function of the output. The `'{:.Nf}'` rendering and `strftime(localtime(t))` are not
interpreted. They are function parameters, bundled in `Columns.Formatters`.

In these details the model follows the code:

- A line with more fields than properties is accepted and the surplus fields are
  ignored. Only a line with too few fields fails, with the `IndexError` of `line[i]`.
- `name` is prepended only when the raw `-o` list lacks it. This is checked before the
  aliases are replaced. A `name` given later in the list stays where it is, and
  duplicate names are kept.
- The terminal unit (`YiB` / `YB`) always gets one decimal, even when the scaled value is below 10.
- `refresh_tree` re-expands rows by walking the old store, not the rebuilt one. See Findings.

## Model

| member | source | states |
|---|---|---|
| `Units.HumanReadable` | zfs-list-gtk.py:25-46 | The loop over the units, which divides `num` by the base after each unit it has outgrown, returns exactly `Format(num, binary)`. |
| `Units.Format` | zfs-list-gtk.py:25-46 | The plain integer with unit `B` is used exactly below one base unit (1024 or 1000). The separator is empty for binary units and a space for decimal ones. |
| `Units.RenderText` | zfs-list-gtk.py:28-46 | `Render(Format(num, binary), fixed)` is the text `human_readable` returns. It ends with the separator and the unit. Before them stand the digits, which for a whole display read back as the integer and otherwise are the `'{:.Nf}'` text of the scaled value. |
| `Units.FormatSmall` | zfs-list-gtk.py:26-39 | Below 1024 (binary) or 1000 (decimal), nothing is scaled. The text is `str(num) + "B"` or `str(num) + " B"`. |
| `Units.FormatUnit` | zfs-list-gtk.py:29-46 | From one base unit up, the chosen unit has index k with 1 <= k <= 8. For k < 8, `b**k <= |num| < b**(k+1)`, i.e. k is the least k >= 1 with `|num|/b**k < b`. The terminal `YiB`/`YB` is used exactly when `|num| >= b**8`. The unscaled `B` is never chosen. |
| `Units.FormatPrecision` | zfs-list-gtk.py:30-46 | From one base unit up, the digits are exactly `num / b**k`. Two decimals are used exactly when the unit is not terminal and `|x| < 10`, and one decimal in every other case. |
| `Units.ScaleBounds` | zfs-list-gtk.py:30-35 | The number of divisions by the base, `Scale(m)`, satisfies `b**Scale(m) <= m < b**(Scale(m)+1)`. |
| `Units.ScaleUnique` | zfs-list-gtk.py:30-35 | That k is the only one with `b**k <= m < b**(k+1)`. |
| `Units.Example1536` | zfs-list-gtk.py:30-32 | `human_readable(1536, binary=True)` gives 1.5 with two decimals and unit `K` (`1.50K`). |
| `Units.ExampleDecimal` | zfs-list-gtk.py:38-42 | `human_readable(1000)` gives 1.0 with two decimals and unit `KB`; `human_readable(999)` gives `999 B`. |
| `Text.Split` | zfs-list-gtk.py:54 | `line.split('\t')` always has at least one piece, and no piece contains the separator. |
| `Text.JoinSplit` | zfs-list-gtk.py:54 | Joining the pieces of a split with the separator gives back the original string. |
| `Text.SplitJoin` | zfs-list-gtk.py:54 | Splitting a join of separator-free pieces gives back the pieces. Together with `JoinSplit`, split and join are inverse. |
| `Text.ParseInt` | zfs-list-gtk.py:93-97 | `int(s)` succeeds exactly on an optional `+` or `-` followed by one or more ASCII digits, and anything else is the `ValueError`. A digit string gives its decimal value, `+` followed by digits gives the same value, and `-` followed by digits gives its negation. |
| `Text.IntToString` | zfs-list-gtk.py:28 | `str(n)` is non-empty and starts with `-` exactly when n is negative. |
| `Text.NatToString` | zfs-list-gtk.py:28 | `str(n)` is a non-empty digit string whose value is n, with no leading zero unless it is `0`. |
| `Text.IntToStringRoundTrip` | zfs-list-gtk.py:93-94 | `int(str(n)) == n`, so the printed raw value gives back the exact integer. |
| `Text.IntToStringInjective` | zfs-list-gtk.py:28 | Different integers print differently. |
| `Listing.ParseZfsListOutput` | zfs-list-gtk.py:49-58 | The loop (skip empty lines, split on tab, assign `rec[props[i]] = line[i]`) returns exactly `ParseLines(lines, props)`. |
| `Listing.ParseLines` | zfs-list-gtk.py:49-58 | On success every record's key set is exactly the set of `props`. A failure names a line index inside the input. |
| `Listing.ParseLinesSucceeds` | zfs-list-gtk.py:51-56 | The parse succeeds if and only if every non-empty line has at least `len(props)` tab-separated fields. |
| `Listing.ParseLinesFailure` | zfs-list-gtk.py:51-56 | A failure names the first failing line: it is non-empty, it has fewer fields than `props`, and every earlier line fits. |
| `Listing.FailureSticks` | zfs-list-gtk.py:51-57 | Once a prefix of the lines fails, the whole parse fails with that error. No partial list of records comes out. |
| `Listing.ParseLinesRecords` | zfs-list-gtk.py:51-57 | On success there is one record per non-empty line, in input order. Record k is built from the fields of the k-th non-empty line. |
| `Listing.NonEmpty` | zfs-list-gtk.py:52 | Each kept line is a non-empty line of the input, and there are no more of them than input lines. |
| `Listing.NonEmptyMultiset` | zfs-list-gtk.py:52 | The kept lines are exactly the non-empty input lines, each as often as it occurs. |
| `Listing.NonEmptyAppend` | zfs-list-gtk.py:52 | Skipping empty lines keeps the order: it distributes over concatenation of line lists. |
| `Listing.RecordOf` | zfs-list-gtk.py:53-56 | The record's keys are exactly the properties. |
| `Listing.RecordOfField` | zfs-list-gtk.py:53-56 | `record[props[i]]` is the i-th field whenever `props[i]` is not repeated later. For distinct properties this holds for every i. Surplus fields are ignored. |
| `Columns.SizeProperties` | zfs-list-gtk.py:14-15 | Membership in `SIZE_PROPERTIES` is exactly the six size properties. |
| `Columns.ColumnTypes` | zfs-list-gtk.py:77-81 | The store has `len(props)` plus the number of dual properties columns. |
| `Columns.StoreColumns` | zfs-list-gtk.py:77-81 | The `cols` loop returns exactly `ColumnTypes(props)`. |
| `Columns.DualCountAppend` | zfs-list-gtk.py:77-81 | The dual properties of two lists one after the other are those of each. |
| `Columns.ColumnTypesAppend` | zfs-list-gtk.py:77-81 | The column types of two lists one after the other are those of each. |
| `Columns.SlotStep` | zfs-list-gtk.py:77-81 | The next property's first slot is two further on after a dual property, one otherwise. |
| `Columns.LayoutSegment` | zfs-list-gtk.py:77-81 | Property j owns the slots `Slot(j)` to `Slot(j+1)`, where `Slot(j) = j + (number of dual properties before j)`. Those slots are `[str]`, or `[str, float]` for a size property or `creation`. |
| `Columns.Cells` | zfs-list-gtk.py:88-100 | One property's values fit its column types. They fail (a `ValueError`) exactly when a size or `creation` field is not an integer, except that a size field of `-` never fails. Any other property gives its raw field text unchanged, as one string cell. |
| `Columns.RowOf` | zfs-list-gtk.py:86-100 | A built row has one slot per property plus one more per dual property. |
| `Columns.BuildRow` | zfs-list-gtk.py:86-100 | The `row` loop for one record returns exactly `RowOf(rec, props)`. |
| `Columns.RowConforms` | zfs-list-gtk.py:77-100 | Every row built from `props` has length `len(props)` plus the number of dual properties, and each slot has the type the store gave it for the same `props`. |
| `Columns.RowFailureSticks` | zfs-list-gtk.py:86-100 | Once some property's values fail, the row fails with that error. |
| `Columns.RowSegmentLast` | zfs-list-gtk.py:86-100 | The last property j's values are the row's slots from `Slot(j)` to `Slot(j+1)`. |
| `Columns.RowSegment` | zfs-list-gtk.py:86-100 | Property j's values sit in slots `Slot(j)` to `Slot(j+1)` of the row, in property order. |
| `Columns.RowFailure` | zfs-list-gtk.py:88-98 | A row fails exactly when some property's values fail. The error names the first such property and its field. |
| `Columns.SortKeyExact` | zfs-list-gtk.py:92-98 | For a size property or `creation` whose field prints the integer n, the float slot holds exactly n. The display is the binary `human_readable` form of n, or the local-time text. |
| `Columns.AbsentSize` | zfs-list-gtk.py:89-91 | A size of `-` shows `-` and sorts as 0, the same key as a real `0`. |
| `Store.TreeStore.constructor` | zfs-list-gtk.py:82 | A new store has the given column types and no rows. |
| `Store.TreeStore.Append` | zfs-list-gtk.py:104-107 | Appending with no parent adds a last root and returns its iter. Appending with a root parent adds a last child of that root. All rows keep the store's column types. |
| `Store.ItemsFrom` | zfs-list-gtk.py:84-100 | It succeeds exactly when every record's row builds. Item k is then record k's `type` with its row. Otherwise it returns a `BadField` error naming a record inside the input. |
| `Store.Records` | zfs-list-gtk.py:70-74 | A parse failure names a line of the split output. |
| `Store.RecordsComplete` | zfs-list-gtk.py:74 | Each parsed record has every property and `type` as keys, so no `KeyError` can arise. |
| `Store.BuildFrom` | zfs-list-gtk.py:84-107 | A failed build stops at a `BadField` or `Orphan` error naming a record inside the input. |
| `Store.BuildFailureSticks` | zfs-list-gtk.py:84-107 | Once the records up to some point fail, the whole build fails with that same error, as `build_treestore` raises there. At start-up the process then exits; in a refresh the view keeps its old model. |
| `Store.Place` | zfs-list-gtk.py:103-107 | Placing fails exactly for a snapshot when no filesystem root exists yet. A filesystem adds one root at the end and keeps the others. A snapshot changes only the last root. Other types change nothing. |
| `Store.Build` | zfs-list-gtk.py:84-107 | A failed build stops at a `BadField` or `Orphan` error naming one of the records. |
| `Store.PlaceStep` | zfs-list-gtk.py:103-107 | Placing one item works exactly when it is not an orphan. The forest then still reads depth-first as the filesystem and snapshot items, and is empty exactly when no filesystem was seen. |
| `Store.BuildMatchesItems` | zfs-list-gtk.py:84-107 | The build succeeds if and only if every row builds and no snapshot comes before every filesystem. Its forest read depth-first is then the filesystem and snapshot items in record order. It has no root exactly when no item is a filesystem. |
| `Store.BuildFirstError` | zfs-list-gtk.py:84-107 | A failed build stops at its error's record: the records before it build, and that record already gives the error. |
| `Store.BuildErrors` | zfs-list-gtk.py:84-107 | `BadField(i, e)` is the row error `e` of record i, and every earlier record builds with no orphan. `Orphan(i)` is a snapshot at record i whose row builds, with no filesystem before it. |
| `Store.AddItem` | zfs-list-gtk.py:102-107 | One `if fs['type'] == ...` step: the store's roots become exactly what `Place` gives, `parent` stays the last root, and an unbound `parent` for a snapshot is reported instead of appending, with the store and `parent` left unchanged. |
| `Store.AddRecords` | zfs-list-gtk.py:84-107 | The loop over the records either fills the store with the roots of `Build`, or returns the error `Build` stops at. |
| `Store.BuildResult` | zfs-list-gtk.py:70-107 | The result is `NoFilesystems` exactly for empty output, and `TooFewFields` exactly when the output is not empty and its parse fails. |
| `Store.BuildTreestore` | zfs-list-gtk.py:70-108 | It succeeds exactly when `BuildResult` does, and its store's roots are then `BuildResult`'s. Otherwise it returns `BuildResult`'s error. Empty output gives `NoFilesystems`, and a short line gives `TooFewFields` for that line. On success the store is new, its columns are `ColumnTypes(props)`, and its depth-first reading is the filesystem and snapshot items of the parsed records. |
| `Store.PreorderFsRows` | zfs-list-gtk.py:103-105 | In a forest's depth-first reading, the filesystem items are exactly its roots, in order. |
| `Store.RelevantFsRows` | zfs-list-gtk.py:103-107 | Dropping the records of other types keeps every filesystem, in order. |
| `Store.Unflatten` | zfs-list-gtk.py:103-107 | The hierarchy rule makes at most one root per item. |
| `Store.UnflattenPreorder` | zfs-list-gtk.py:103-107 | The hierarchy rule (a filesystem starts a root, a snapshot joins the latest root) applied to a forest's depth-first reading gives back that forest. |
| `Store.UnflattenRelevant` | zfs-list-gtk.py:103-107 | Records of other types do not change the forest the hierarchy rule builds. |
| `Store.Hierarchy` | zfs-list-gtk.py:103-107 | The built store's roots are exactly the filesystem rows, in input order. The store is the forest in which each snapshot is the next child of the nearest filesystem before it. Other types neither appear nor change the parent. |
| `Store.PreorderInjective` | zfs-list-gtk.py:103-107 | Two forests with the same depth-first reading are equal. |
| `View.SortSlot` | zfs-list-gtk.py:139-143 | The sort slot lies inside the property's own slots. It differs from the text slot exactly for a dual property. |
| `View.ColumnFor` | zfs-list-gtk.py:122-152 | A column shows the first slot of its property and sorts by a slot of that same property. |
| `View.ColumnsUpToAt` | zfs-list-gtk.py:139-152 | The k-th column made after j properties is the one for property k. |
| `View.ViewColumns` | zfs-list-gtk.py:122-152 | Column j is titled `props[j]` and shows slot `Slot(j)`. It sorts by `Slot(j) + 1` for a dual property and by `Slot(j)` otherwise. It is right-aligned unless it is `name`, `mountpoint` or `creation`. |
| `View.ViewMatchesStore` | zfs-list-gtk.py:139-152 | Every column shows a string slot of the store. Every dual column sorts by a float slot and every plain column by a string slot. All these slots exist. |
| `View.RootKeysAreText` | zfs-list-gtk.py:209-211 | On a store built for `props`, every root has a `row[0]`, and it is the text cell of the first property, the value compared with `expanded_rows`. |
| `View.CaptureExpanded` | zfs-list-gtk.py:208-211 | The first loop of `refresh_tree` returns exactly `Captured(RootKeys(roots), isExpanded)`. |
| `View.ExpandPaths` | zfs-list-gtk.py:219-221 | The second loop returns exactly `ExpandTargets(RootKeys(roots), captured)`. |
| `View.Captured` | zfs-list-gtk.py:208-211 | At most one key is noted per root. |
| `View.ExpandTargets` | zfs-list-gtk.py:219-221 | At most one path is expanded per root. |
| `View.CapturedMembers` | zfs-list-gtk.py:208-211 | A key is noted if and only if some expanded root path carries it. |
| `View.ExpandTargetsMembers` | zfs-list-gtk.py:219-221 | Path i is expanded if and only if it is a root path whose key was noted. |
| `View.ExpandTargetsOrdered` | zfs-list-gtk.py:219-221 | Every expanded path is a root path. Each is expanded at most once, in increasing order. |
| `View.ReexpandByKey` | zfs-list-gtk.py:206-221 | Re-expanding new roots by key expands path i exactly when some expanded old root had the same key, even if it was a different filesystem with a reused name. |
| `View.StaleReexpand` | zfs-list-gtk.py:206-221 | As written, keys are noted from and re-applied to the same old roots. With distinct keys, the refresh expands exactly the paths that were expanded before, whatever the new listing holds. |
| `View.StaleRefreshExample` | zfs-list-gtk.py:219-221 | Concrete case: old roots tank and tank/a, with tank/a expanded, and a new listing that adds tank/0. Path 1 (now tank/0) is expanded; matching the new roots by key would have expanded path 2. |
| `View.Gui.constructor` | zfs-list-gtk.py:112-152 | `self.store` and the displayed model are the given store. The columns are those of `ViewColumns`. |
| `View.Gui.RefreshTree` | zfs-list-gtk.py:206-221 | Notes `row[0]` of the expanded roots of `self.store`. It succeeds exactly when `BuildResult` of the output does, and then shows a new store whose roots are `BuildResult`'s. It calls `expand_row` on `ExpandTargets` over `self.store`'s roots, which stay the old store's. A failed build returns `BuildResult`'s error and leaves the model as it was. |
| `View.Gui.RefreshTreeFixed` | zfs-list-gtk.py:206-221 | The corrected refresh. It notes keys from the displayed model. It succeeds exactly when `BuildResult` does, and then shows a new store whose roots are `BuildResult`'s, expands those roots whose key was noted, and keeps `self.store` on the rebuilt store. A failed build returns `BuildResult`'s error and changes nothing. |
| `Options.Replace` | zfs-list-gtk.py:268-270 | One alias pass keeps the length. After it no entry is `from`, and no name other than `to` appears that was absent before. |
| `Options.Normalize` | zfs-list-gtk.py:265-270 | The normalised list always holds `name`. Its full shape in terms of the comma-split argument is `Options.NormalizeSplit`. |
| `Options.NormalizeProps` | zfs-list-gtk.py:266-270 | The result is one longer than the raw list exactly when the raw list lacks `name`. |
| `Options.NormalizeShape` | zfs-list-gtk.py:266-270 | The result is the raw list, with `name` in front exactly when the raw list lacks it. Every raw entry is replaced by its alias. Order is kept, nothing is dropped, and duplicates stay. |
| `Options.NormalizeSplit` | zfs-list-gtk.py:265-270 | `args.o.split(',')` cuts the argument into comma-free pieces that join back to it. The normalised list is those pieces with `name` in front exactly when they lack it, each replaced by its alias. |
| `Options.NormalizeNamesName` | zfs-list-gtk.py:265-270 | The result always contains `name`. |
| `Options.NormalizeNoAlias` | zfs-list-gtk.py:268-270 | No `avail`, `refer` or `ratio` is left in the result. |
| `Options.AliasedAt` | zfs-list-gtk.py:268-270 | The three passes keep the length and replace each entry by its alias. |
| `Options.PassesAlias` | zfs-list-gtk.py:268-270 | Applied one after the other, the three passes map an entry to its full property name. |
| `Options.NormalizeNameFirst` | zfs-list-gtk.py:265-267 | `name` comes first exactly when the raw list lacks it or already starts with it. In `used,name` it stays second. |

## Findings

| source | as written | input that shows it | evidently intended | confidence | as-written member | corrected member |
|---|---|---|---|---|---|---|
| zfs-list-gtk.py:219-221 | After `set_model(treestore)`, the re-expand loop walks `self.store`, the store built in `__init__`, which is never reassigned. So it expands the old positions of the noted rows, not the new rows with those names. | Roots `tank`, `tank/a` with `tank/a` (path 1) expanded; the next listing adds `tank/0` between them. `expand_row` is called on path 1, now `tank/0`, and `tank/a` (path 2) stays collapsed. | Walk the rebuilt `treestore` when re-expanding, and keep `self.store` on it so the next refresh notes the rows actually shown. | not executed; high | `View.Gui.RefreshTree`, `View.StaleRefreshExample` | `View.Gui.RefreshTreeFixed`, `View.ReexpandByKey` |

## Left out

- The `zfs list` subprocess call and its `sys.exit` paths (lines 62-69) are left out. The model takes the decoded output text as a parameter.
  The empty-output exit (line 71-72) is kept, as the `NoFilesystems` error.
- GTK widgets and signals are left out: renderers, alignment calls, scroll window, button, window title, `on_changed` with its loop over the selection (zfs-list-gtk.py:229-230), `on_row_activated`, `close` with its loop over the column widths (zfs-list-gtk.py:244-245), `Gtk.main`.
  Only the slot and alignment choices of the column loop are modelled.
- `self.window.set_title(self.store[0][0])` (line 197) is left out with the window. It raises `IndexError` when the listing holds no filesystem.
- `refresh_tree`'s calls into the view are left out as GTK behaviour. `row_expanded` becomes the parameter `isExpanded` over root paths. `expand_row` is recorded as the sequence of paths it is called on; its effect on the view is not modelled.
- Persisting the window options is left out as file and environment I/O: `pickle.load`/`pickle.dump` and the `HOME`-derived path (lines 17-22, 247, 259-263). So are column widths from those options (lines 148-149) and `argparse` (lines 253-257).
- `time.strftime`/`time.localtime` (lines 96-97) depend on the time zone and locale, so they are the uninterpreted parameter `Formatters.localTime`. Errors they raise for out-of-range epochs are not modelled.
- Units.HumanReadable: scaled values are exact reals, not binary64 floats. The `'{:.Nf}'` text and its rounding (a value just under 1024 may print as `1024.0`) are the uninterpreted parameter `Formatters.fixed`.
- Text.ParseInt: `int()` is modelled for an optional sign followed by ASCII digits. Python also accepts surrounding whitespace, underscores between digits and non-ASCII digits; `zfs list -p` never prints those. `float(v)` is taken to give the integer just parsed, as a real, without binary64 rounding above 2**53.
- Store.TreeStore.Append: only roots can be parents, because the program never appends below a snapshot.
- Store.BuildTreestore: its contract does not repeat which record a `BadField` or `Orphan` error names. `Store.BuildErrors` states that, over the steps of the parsed records.
