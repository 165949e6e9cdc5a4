# E001_smart_structuring utilities, modelled in Dafny

This project models four utilities of a data-science project template and
proves what they promise:

- **`requirements_versions`** rewrites a `requirements.txt` so that every
  package pins its installed version. Each line is stripped and handled in one
  of five ways:
  - a blank line is kept as an empty entry;
  - a comment or an editable install is kept as the stripped line;
  - a package line becomes `name==version`, where the name is the text before
    the first `==`, then before the first space, then before the first `#`;
  - a package that is not installed is dropped;
  - a line with an empty name is kept only when it ends with `#`.

  The entries are then written back, one per line. The installed versions are
  a map from package name to version, and both files are text.
- **`paths_dictionary`** walks the project tree below the parent directory and
  skips folders whose names start with `.` or `_`. For every folder it stores
  the folder's path under a key made from that path: the parent path is
  deleted, separators are stripped from both ends, and the remaining ones
  become `_`. It also stores one entry for the parent itself. `os.walk` is
  modelled as an input tree walked top-down with an explicit stack, and the
  separator is `/`.
- **`DataFrameInspector`** shows a frame's first and last five rows and its
  shape, and looks for a primary key: the first column whose values are
  pairwise distinct. A frame is a sequence of named columns of equal length.
- **`LinearDiagnostics`** builds the residual table of a fitted model:
  - it selects the model's variables;
  - it pairs predictions with targets by position, with
    `residual = actual - predicted`;
  - it sorts the rows by residual.

  Each residual test then turns a statistic into a verdict with a fixed rule:
  - a p-value against alpha;
  - the Durbin–Watson buckets;
  - the Anderson–Darling critical values;
  - the VIF > 5 flag.

  The statistics themselves come from foreign numeric libraries. They are
  modelled as opaque functions (`Statistics`), and all values are `real`.

The methods that loop or update state in the source are methods here. Each is
proved equal to a specification function:
- `CollectRequirements`, `WriteRequirements` and `PathsDictionary` are proved
  equal to `RewriteAll`, `Serialised` and `PathsDict`;
- the search in `IdentifyPrimaryKey` and the loop over levels in
  `CompareLevels` state their results outright.

The lemmas then prove properties of those functions:
- reading the output file back gives one line per entry;
- pinning a pinned file changes nothing;
- the walk visits exactly the folders reachable through kept names;
- every key and every value of the path dictionary has the promised shape.

Module layout:
- `Wrappers`: Option and Result.
- `Text`: the Python `str` operations used.
- `Frames`: columns, `head`, `tail` and column selection.
- `RequirementsVersions`, `Paths`, `DfInspect` and `Diagnostics`: one module
  per source file.

## Model

| member | source | states |
|---|---|---|
| `Text.StripBySpec` | src/utils/requirements_versions.py:28 | `strip` returns a slice that neither starts nor ends with a stripped character. Everything cut off is stripped. The result is empty exactly when every character is stripped. |
| `Text.FindFrom` | src/utils/requirements_versions.py:40 | Returns the first occurrence of the pattern at or after the start, or the length when there is none. |
| `Text.Before` | src/utils/requirements_versions.py:40 | `split(pat)[0]` is a prefix without the pattern, cut exactly at the pattern's first occurrence. |
| `Text.RemoveAll` | src/utils/paths.py:34 | `replace(pat, "")` never makes a string longer. |
| `Text.ReplaceChar` | src/utils/paths.py:36 | `replace(a, b)` keeps the length and changes exactly the characters equal to `a`. |
| `Text.RemoveCharLeavesNone` | src/utils/paths.py:39 | Deleting every separator leaves none. |
| `Text.StripByIdentity` | src/utils/paths.py:35 | Stripping a string padded on both sides with stripped characters gives back the string. |
| `Text.Strip` | src/utils/requirements_versions.py:28 | `str.strip()`: `StripBy` with Python's whitespace set. Its shape is stated by `StripBySpec`. |
| `Text.StripChar` | src/utils/paths.py:35 | `str.strip(os.sep)`: `StripBy` with the single separator character. |
| `Text.Remove` | src/utils/paths.py:34 | `str.replace(pat, "")`, where an empty pattern leaves the string as it is. Its effect on a single character is stated by `RemoveCharLeavesNone`. |
| `RequirementsVersions.ReadLines` | src/utils/requirements_versions.py:26-27 | Iterating over the file yields non-empty lines. Only the last may lack its newline, and together they are the whole text. |
| `RequirementsVersions.Classify` | src/utils/requirements_versions.py:30-52 | Tests a stripped line in the source's order: blank, comment, editable, then package name. Only the empty line is blank, and a package line has a non-empty name and is neither a comment nor an editable install. |
| `RequirementsVersions.PackageName` | src/utils/requirements_versions.py:39-41 | The cut before `==`, then a space, then `#`, stripped. Its shape is stated by `PackageNameShape`. |
| `RequirementsVersions.RewriteLine` | src/utils/requirements_versions.py:28-56 | The entry one line contributes, or none when it is dropped. Its cases are stated by `RewriteLineCases` and its fixed point by `RewriteLineFixedPoint`. |
| `RequirementsVersions.RewriteLineCases` | src/utils/requirements_versions.py:28-56 | A blank line gives the empty entry, and only a blank line does. A comment or an editable line gives the stripped line. An installed package gives exactly `name==version`. A line is dropped iff it names a package that is not installed, or has an empty name and does not end with `#`. |
| `RequirementsVersions.PinLine` | src/utils/requirements_versions.py:28-56 | The loop body, with its `continue` branches in the source's order, yields the entry `RewriteLine` specifies. |
| `RequirementsVersions.CollectRequirements` | src/utils/requirements_versions.py:24-56 | The collected list is `RewriteAll` of the lines: each line's entry, if any, in input order. |
| `RequirementsVersions.RewriteAllStep` | src/utils/requirements_versions.py:27-56 | Processing the rest of the file from one line on gives that line's entry, then the entries of the lines after it. |
| `RequirementsVersions.RewriteAll` | src/utils/requirements_versions.py:26-56 | The collected entries of a whole file: each line's entry, if any, in input order. Its properties are stated by `RewriteAllAppend`, `RewriteAllLength` and `EntriesFixedPoint`. |
| `RequirementsVersions.Serialised` | src/utils/requirements_versions.py:60-66 | The written file: each entry followed by a newline. Its properties are stated by `SerialisedAppend`, `ReadBack` and `OutputLines`. |
| `RequirementsVersions.PinnedText` | src/utils/requirements_versions.py:20-66 | The output file for a source file: read, rewrite, write. It is idempotent by `PinningIsIdempotent`. |
| `RequirementsVersions.WriteRequirements` | src/utils/requirements_versions.py:60-66 | The output is every entry followed by a newline, with a bare newline for the empty entry. |
| `RequirementsVersions.PinRequirements` | src/utils/requirements_versions.py:20-66 | Running the whole function gives the text `PinnedText` specifies for the source file. |
| `RequirementsVersions.RewriteAllAppend` | src/utils/requirements_versions.py:26-56 | Lines are rewritten independently, and entries keep the input order. |
| `RequirementsVersions.RewriteAllLength` | src/utils/requirements_versions.py:26-56 | Each line contributes at most one entry. |
| `RequirementsVersions.SerialisedAppend` | src/utils/requirements_versions.py:61-66 | Writing one more entry appends that entry and a newline. |
| `RequirementsVersions.Terminated` | src/utils/requirements_versions.py:60-66 | The lines of the output file are the entries, each followed by a newline. |
| `RequirementsVersions.PackageNameShape` | src/utils/requirements_versions.py:39-41 | The extracted name contains no space, no `#` and no `==`. It neither starts nor ends with whitespace, and it is a prefix of the stripped line. |
| `RequirementsVersions.BeforeSeparators` | src/utils/requirements_versions.py:40 | The part before the first `==`, space and `#` contains none of them and is a prefix of the line. |
| `RequirementsVersions.StripAvoids` | src/utils/requirements_versions.py:40 | Stripping cannot introduce a pattern. |
| `RequirementsVersions.StrippedLineHasNoNewline` | src/utils/requirements_versions.py:27-28 | A stripped file line holds no newline. |
| `RequirementsVersions.StripIdentity` | src/utils/requirements_versions.py:28 | A stripped string followed by whitespace strips back to itself. |
| `RequirementsVersions.FindFirst` | src/utils/requirements_versions.py:40 | `split` cuts at the first occurrence. |
| `RequirementsVersions.EntryName` | src/utils/requirements_versions.py:39-41 | The name extracted from `name==version` is `name`. |
| `RequirementsVersions.EntryClassified` | src/utils/requirements_versions.py:34-49 | A pinned entry, read again, is a package line for the same name. |
| `RequirementsVersions.PinnedEntryFixedPoint` | src/utils/requirements_versions.py:42-49 | Pinning the line `name==version` again gives the same entry. |
| `RequirementsVersions.RewriteLineFixedPoint` | src/utils/requirements_versions.py:28-56 | Every entry is one line, and rewriting it again gives the same entry. |
| `RequirementsVersions.EntryFixedPoint` | src/utils/requirements_versions.py:28-56 | One line's entries, written out and rewritten, are unchanged. |
| `RequirementsVersions.EntriesFixedPoint` | src/utils/requirements_versions.py:26-66 | The entries of a file, written out and rewritten, are the same entries. |
| `RequirementsVersions.ReadBack` | src/utils/requirements_versions.py:60-66 | Reading the written file gives exactly one line per entry. |
| `RequirementsVersions.OutputLines` | src/utils/requirements_versions.py:60-66 | The output file has exactly one line per entry, in order. |
| `RequirementsVersions.PinningIsIdempotent` | src/utils/requirements_versions.py:20-66 | Pinning the pinned file again gives the same text. |
| `Paths.Keep` | src/utils/paths.py:27 | A folder is kept unless its name starts with `.` or `_`. |
| `Paths.JoinPath` | src/utils/paths.py:31 | `os.path.join` of a path and a name: one separator between them unless the path is empty or already ends with it. Its iterated shape is stated by `JoinAllShape`. |
| `Paths.Walk` | src/utils/paths.py:24-28 | `os.walk` top-down: the folder itself comes first, then the walks of its kept subfolders in listing order. What it visits is stated by `WalkSound` and `WalkComplete`. |
| `Paths.WalkEach` | src/utils/paths.py:24-28 | The walks of the kept folders of a list, in order. Pruned folders contribute nothing. |
| `Paths.PathsDict` | src/utils/paths.py:22-40 | The dictionary returned: the loop body run on every step of the walk, in order. Its keys and values are stated by the `PathsDict…` lemmas. |
| `Paths.KeptNames` | src/utils/paths.py:26-28 | The pruned directory list is no longer than the original. |
| `Paths.KeptNamesMembers` | src/utils/paths.py:26-28 | A name survives pruning iff it was listed and starts with neither `.` nor `_`. |
| `Paths.KeptSubfolders` | src/utils/paths.py:26-28 | A subfolder is kept iff its name starts with neither `.` nor `_`. |
| `Paths.FolderKey` | src/utils/paths.py:33-37 | A folder key never contains a separator. |
| `Paths.ParentKey` | src/utils/paths.py:39 | The parent key is the parent path with every separator deleted, so it contains none. |
| `Paths.FolderPaths` | src/utils/paths.py:30-31 | There is one folder path per kept directory. |
| `Paths.FolderPath` | src/utils/paths.py:31 | The value stored for a directory: `os.path.join(root, dir)` followed by `/`. |
| `Paths.FolderPathsAt` | src/utils/paths.py:31 | The i-th path is `join(root, dir) + "/"` for the i-th kept directory. |
| `Paths.Writes` | src/utils/paths.py:30-38 | The inner loop performs one write per kept directory. |
| `Paths.WritesAt` | src/utils/paths.py:33-38 | The i-th write stores the i-th folder path under that path's key. |
| `Paths.OverwriteSpec` | src/utils/paths.py:38-39 | After the writes, the keys are the old keys plus the written ones. Each written key holds the value of its last write, and every other entry is untouched. |
| `Paths.Overwrite` | src/utils/paths.py:38 | The dictionary assignments of the inner loop, in order. Their effect is stated by `OverwriteSpec` and `OverwriteSource`. |
| `Paths.RecordStep` | src/utils/paths.py:26-39 | One iteration of the walk loop: every kept folder stored under its key, then the parent's entry. Stated by `RecordStepKeepsKeys` and `RecordStepWritesKey`. |
| `Paths.Record` | src/utils/paths.py:24-39 | The loop body run on a sequence of walk steps, in order. Its keys and values are stated by `RecordHasKey`, `RecordValueSource`, `RecordPairs` and `RecordKeysNoSep`. |
| `Paths.OverwriteSource` | src/utils/paths.py:38 | Every entry after the writes is either an untouched old entry or one of the writes. |
| `Paths.Descend` | src/utils/paths.py:24-28 | `os.walk` goes on to exactly the kept subfolders, in order, before the folders already pending. |
| `Paths.RecordFolders` | src/utils/paths.py:30-39 | One loop step writes every kept folder under its key, in order, then writes the parent entry. |
| `Paths.PathsDictionary` | src/utils/paths.py:22-40 | The returned dictionary is `PathsDict`: one loop step, in order, for every folder of the top-down walk. |
| `Paths.WalkSound` | src/utils/paths.py:24-28 | Every folder the walk visits is reached from the parent through a path of kept names. |
| `Paths.WalkEachSound` | src/utils/paths.py:24-28 | Every folder visited below a list of folders is reached through one of its kept members. |
| `Paths.WalkComplete` | src/utils/paths.py:24-28 | Every folder reachable through kept names is visited. |
| `Paths.WalkEachComplete` | src/utils/paths.py:24-28 | Every folder reachable through a kept member of a list is visited. |
| `Paths.VisitsOnlyKept` | src/utils/paths.py:26-28 | A pruned folder is never descended into: every name on the path to a visited folder is kept. |
| `Paths.VisitsExtend` | src/utils/paths.py:24-28 | A kept subfolder of a visited folder is reached by one more name. |
| `Paths.WalkDescends` | src/utils/paths.py:24-28 | A kept subfolder of a visited folder is itself visited. |
| `Paths.WritesKeysNoSep` | src/utils/paths.py:33-38 | No written key contains a separator. |
| `Paths.RecordKeysNoSep` | src/utils/paths.py:33-39 | No key of the dictionary built over any walk contains a separator. |
| `Paths.RecordStepKeepsKeys` | src/utils/paths.py:38-39 | A loop step never removes a key. |
| `Paths.RecordStepWritesKey` | src/utils/paths.py:30-38 | A loop step stores a key for each of its kept folders. |
| `Paths.RecordHasKey` | src/utils/paths.py:24-38 | The key of every kept folder of every step is in the final dictionary. |
| `Paths.RecordValueSource` | src/utils/paths.py:30-39 | Every value is the parent path plus `/`, or `join(root, dir) + "/"` for a visited root and one of its kept directories. |
| `Paths.PathsDictParentEntry` | src/utils/paths.py:39 | The parent entry is present and maps the parent key to the parent path plus `/`. |
| `Paths.PathsDictKeysNoSep` | src/utils/paths.py:33-39 | No key of the returned dictionary contains a separator. |
| `Paths.PathsDictKeys` | src/utils/paths.py:30-38 | Every kept subfolder of a visited folder has its key in the returned dictionary. |
| `Paths.PathsDictValues` | src/utils/paths.py:30-39 | Every value is the path of a visited folder followed by `/`. |
| `Paths.RecordPairs` | src/utils/paths.py:33-39 | Every key except the parent's is the key computed from the path stored under it. |
| `Paths.PathsDictPairs` | src/utils/paths.py:33-39 | Keys and values belong together: every entry except the parent's is stored under `FolderKey` of its own value. |
| `Paths.VisitsRoot` | src/utils/paths.py:24-31 | A folder reached through a list of names sits at the path joined from those names. |
| `Paths.VisitsValid` | src/utils/paths.py:24-28 | On a tree of valid directory names, every name on a visited path is valid. |
| `Paths.JoinAllSnoc` | src/utils/paths.py:31 | Joining one more name extends the joined path with `os.path.join`. |
| `Paths.JoinWithEnds` | src/utils/paths.py:31 | A separator-joined relative path neither starts nor ends with the separator. |
| `Paths.JoinAllShape` | src/utils/paths.py:31 | A joined path is the root, one separator if needed, and the names joined by the separator. |
| `Paths.ReplaceCharConcat` | src/utils/paths.py:36 | Replacing a character distributes over concatenation. |
| `Paths.ReplaceAbsent` | src/utils/paths.py:36 | Replacing a character that does not occur changes nothing. |
| `Paths.ReplaceJoin` | src/utils/paths.py:36 | Replacing the separator in names joined by the separator joins them by `_`. |
| `Paths.IntendedFolderKey` | src/utils/paths.py:32-37 | The key with only the leading parent path removed contains no separator. |
| `Paths.StripRelative` | src/utils/paths.py:35 | Stripping separators from `/relative/` gives the relative path. |
| `Paths.IntendedKeyJoinsNames` | src/utils/paths.py:32-37 | The intended key of a folder is its path relative to the parent with `_` for the separator. |
| `Paths.KeyCollision` | src/utils/paths.py:33-37 | Below the parent `/p`, the folders `x/pq` and `xq` both get the key `xq`. |
| `Paths.RemoveParentNested` | src/utils/paths.py:34 | Deleting `/p` from `/p/x/pq/` also deletes the `/p` inside `/pq`. |
| `Paths.RemoveParentSibling` | src/utils/paths.py:34 | Deleting `/p` from `/p/xq/` gives `/xq/`. |
| `Paths.StripXq` | src/utils/paths.py:35-36 | Stripping and replacing separators in `/xq/` gives `xq`. |
| `Paths.IntendedPathsDictKeys` | src/utils/paths.py:30-38 | With the intended key, every kept subfolder of a visited folder has an entry under its relative path joined by `_`. |
| `Paths.IntendedPathsDictPairs` | src/utils/paths.py:32-39 | In the corrected dictionary, every entry except the parent's is stored under the intended key of its own path. |
| `Paths.IntendedKeyCollision` | src/utils/paths.py:32-37 | The corrected key is still not one-to-one: below `/p`, the folders `a_b` and `a/b` both get the key `a_b`. |
| `Paths.IntendedPathsDict` | src/utils/paths.py:22-40 | The corrected dictionary: the same walk and loop as `PathsDict`, keyed by `IntendedFolderKey`. Its keys are stated by `IntendedPathsDictKeys`. |
| `Frames.Head` | src/utils/df_inspect.py:25-31 | `head(n)` keeps every column's name and takes a prefix of its values, `min(n, rows)` long. |
| `Frames.Tail` | src/utils/df_inspect.py:33-39 | `tail(n)` keeps every column's name and takes a suffix of its values, `min(n, rows)` long. |
| `Frames.HeadTailWhole` | src/utils/df_inspect.py:25-39 | Asking for at least as many rows as the frame has shows the whole frame. |
| `Frames.Find` | src/utils/diagnostics.py:137 | Returns a column of the requested name, and there is one iff the frame has that name. |
| `Frames.Missing` | src/utils/diagnostics.py:137 | Lists exactly the requested names the frame lacks. |
| `Frames.Select` | src/utils/diagnostics.py:137 | Selection succeeds iff every requested name is a column. The result has the requested columns, in the requested order, with all rows. A failure lists the missing names. |
| `DfInspect.DataFrameInspector.constructor` | src/utils/df_inspect.py:9-15 | Stores the frame and runs the read-only reports. The frame is a `const`, so nothing changes it. |
| `DfInspect.DataFrameInspector.DataFrameHead` | src/utils/df_inspect.py:25-31 | The rows shown are the frame's `head(n)`. |
| `DfInspect.DataFrameInspector.DataFrameTail` | src/utils/df_inspect.py:33-39 | The rows shown are the frame's `tail(n)`. |
| `DfInspect.DataFrameInspector.DataFrameShape` | src/utils/df_inspect.py:41-47 | Returns the number of rows and of columns, and every column has that many values. |
| `DfInspect.Unique` | src/utils/df_inspect.py:54 | pandas' `is_unique`: no value occurs twice. |
| `DfInspect.DataFrameInspector.IdentifyPrimaryKey` | src/utils/df_inspect.py:49-58 | Returns the name of the first column whose values are pairwise distinct, and every earlier column has a duplicate. `None` iff no column qualifies, including when there are no columns. |
| `Diagnostics.PredictionSet` | src/utils/diagnostics.py:136-137 | The prediction set is exactly the data columns listed for the model's variable set, in order. An unknown model, an unknown alias or missing columns is a lookup failure. |
| `Diagnostics.ResidualTable` | src/utils/diagnostics.py:139-142 | Rows pair `predicted[i]` with `actual[i]` and hold `actual - predicted`. The table exists iff the lengths agree, except as noted under Left out for an empty prediction. |
| `Diagnostics.Insert` | src/utils/diagnostics.py:143 | Inserting into a sorted table keeps it sorted and adds exactly that row. |
| `Diagnostics.SortByResidual` | src/utils/diagnostics.py:143 | The sorted table is a permutation of the rows, with each row kept whole, in non-decreasing order of residual. |
| `Diagnostics.SortedTableRows` | src/utils/diagnostics.py:139-143 | After sorting there is still one row per observation, and each row pairs a prediction and a target from the same position, with their residual. |
| `Diagnostics.PValueVerdict` | src/utils/diagnostics.py:215-220 | The tests fail to reject iff `p > alpha`, so `p == alpha` rejects. The same rule serves lines 235-240, 284-289 and 359-364. |
| `Diagnostics.RejectionGrowsWithAlpha` | src/utils/diagnostics.py:215-220 | Whatever a smaller alpha rejects, a larger alpha rejects too. |
| `Diagnostics.DurbinWatsonVerdict` | src/utils/diagnostics.py:304-312 | Negative correlation iff `d > 2.5`, none iff `1.5 < d <= 2.5`, positive iff `d <= 1.5`. |
| `Diagnostics.CompareLevels` | src/utils/diagnostics.py:258-267 | There is one verdict per tabulated level, in table order. Each fails to reject iff the statistic is strictly below that level's critical value. |
| `Diagnostics.VifTable` | src/utils/diagnostics.py:385-389 | There is one VIF per prediction-set column, in column order, named after the column. |
| `Diagnostics.MaxOf` | src/utils/diagnostics.py:391 | The maximum is at least every value and is one of them. |
| `Diagnostics.MinOf` | src/utils/diagnostics.py:333-338 | The minimum is at most every value and is one of them. |
| `Diagnostics.Multicollinear` | src/utils/diagnostics.py:391-396 | Multicollinearity is flagged iff some VIF exceeds 5. |
| `Diagnostics.ReferenceLine` | src/utils/diagnostics.py:333-340 | The diagonal runs from `(lo, lo)` to `(hi, hi)` with `lo <= hi`. It spans every actual and predicted value, and both ends are such values. |
| `Diagnostics.LinearDiagnostics.constructor` | src/utils/diagnostics.py:105-157 | Stores the inputs, selects the prediction set and predicts. The table is built and then replaced by its sorted version, and `result` is set by the Anderson–Darling test. |
| `Diagnostics.LinearDiagnostics.Create` | src/utils/diagnostics.py:131-157 | Construction fails with the lookup error the source raises, or with a length mismatch. Otherwise the new object stores the model name, data, target and alpha. Its predictions are the model's `predict` on the selected prediction set, its table is the sorted residual table of those predictions, and `result` is the Anderson–Darling result on its residuals. |
| `Diagnostics.LinearDiagnostics.JbNormalTest` | src/utils/diagnostics.py:202-221 | Jarque–Bera runs on the residual column, and its verdict is the p-value rule on its second value. |
| `Diagnostics.LinearDiagnostics.SwNormalTest` | src/utils/diagnostics.py:223-241 | Shapiro–Wilk runs on the residual column, and its verdict is the p-value rule. |
| `Diagnostics.LinearDiagnostics.AdNormalTest` | src/utils/diagnostics.py:243-268 | Stores the Anderson–Darling result, then reports one verdict per level. |
| `Diagnostics.LinearDiagnostics.NormalTest` | src/utils/diagnostics.py:270-290 | D'Agostino–Pearson runs on the residual column, and its verdict is the p-value rule. |
| `Diagnostics.LinearDiagnostics.DwAutocorrTest` | src/utils/diagnostics.py:292-313 | Durbin–Watson runs on the residual column and is bucketed by `DurbinWatsonVerdict`. |
| `Diagnostics.LinearDiagnostics.HomoskedasticityPlot` | src/utils/diagnostics.py:315-341 | The reference diagonal drawn is `ReferenceLine` of the table. |
| `Diagnostics.LinearDiagnostics.BpTestHomoskedasticity` | src/utils/diagnostics.py:343-365 | Breusch–Pagan runs on the residual column and the prediction set, and its verdict is the p-value rule on the LM p-value. |
| `Diagnostics.LinearDiagnostics.Vif` | src/utils/diagnostics.py:370-397 | The VIF table has one value per column, and the flag is `Multicollinear` of it. |

## Left out

- File I/O, `os.getcwd`, `os.path.dirname` and printing are not modelled. The source file, the parent path and the installed versions are parameters, and results are returned instead of printed.
- `pkg_resources.get_distribution` becomes a map lookup on the exact name. pip's normalisation of names (case, `-` versus `_`) is not modelled.
- `RequirementsVersions.RewriteLine` drops every line whose name is not in the installed map. The source catches only `DistributionNotFound`. Other errors from `get_distribution` are not caught, and the function stops before the file is written. This happens for a requirement that does not parse (`-r base.txt`, `--index-url URL`, a `git+https://` line) and for a specifier the installed version conflicts with (`foo>=99` raises `VersionConflict`). The model has no aborting outcome for these.
- `RequirementsVersions.RewriteLine` looks up the name only. For a satisfied specifier such as `foo>=0.5`, the source asks `get_distribution` about the whole string and writes `foo>=0.5==1.0`. The model matches this only when the map is read as the answer for the whole string, not as a table from names to versions.
- `RequirementsVersions.ReadLines` splits on `\n` only. Python's universal-newline translation of `\r\n` and `\r` is not modelled.
- `RequirementsVersions.PinningIsIdempotent` and `RequirementsVersions.OutputLines` assume that installed names never end with `=` and that versions contain no whitespace, which holds for pip metadata.
- `os.walk` is an input tree with a fixed subfolder order. Several things are not modelled: errors while listing, symbolic links, the `files` list, Windows separators and `os.path.join` of an absolute name.
- `Paths.PathsDictParentEntry` states the parent entry's final value, not that re-inserting it changes nothing. A folder key can equal the parent key, and then the folder's entry is overwritten by the parent entry within the same step.
- `Paths.IntendedPathsDictKeys` promises that an entry is present under each folder's `_`-joined relative path, not that the entry holds that folder's path. Joining with `_` is not one-to-one when a directory name itself contains `_`: `a_b` and `a/b` share the key `a_b` (`Paths.IntendedKeyCollision`), and the later write wins.
- `Paths.IntendedPathsDictKeys` and `Paths.IntendedKeyJoinsNames` assume that directory names are non-empty and contain no separator (`ValidTree`), as names listed by `os.walk` are.
- `_get_dataframe_info` is not modelled. `DataFrame.info()` prints dtypes and non-null counts, which belong to pandas.
- Not modelled in pandas: NaN in `is_unique`, `min`, `max` and the statistics; frames with duplicate column names; the tie order of `sort_values` (the model sorts stably, and only sortedness and the permutation are promised).
- `Diagnostics.LinearDiagnostics.constructor` requires the lookups to succeed and the lengths to agree. `Diagnostics.LinearDiagnostics.Create` returns those cases as errors.
- The statistical procedures (`jarque_bera`, `shapiro`, `anderson`, `normaltest`, `durbin_watson`, `het_breuschpagan`, `variance_inflation_factor`) and `model.predict` are opaque functions. The Anderson–Darling result is taken to have one significance level per critical value, as scipy returns it.
- Durbin–Watson and Breusch–Pagan run on the residuals after they have been sorted by residual. The model keeps this as the source does and proves nothing about it.
- Plotting and display are not modelled: histograms, density and QQ plots, scatter plots, the correlation heat map, `describe()` and the HTML tables. Of the homoskedasticity plot, only the reference diagonal's endpoints are modelled. When the table is empty there is no line to draw, where pandas' NaN would draw nothing.
- `Diagnostics.ResidualTable` and `Diagnostics.LinearDiagnostics.Create` report a length mismatch whenever the lengths differ. The source raises one only when the prediction list is non-empty. When `predict` returns no values and the target has some, pandas reindexes the empty frame to the target's length and fills `predicted` and `residual` with NaN, and no error is raised. There is no NaN in `real`, so the model reports the mismatch in that case too.
- Floating point is modelled as `real`.

## Findings

| source | as written | input that shows it | evidently intended | confidence | as-written member | corrected member |
|---|---|---|---|---|---|---|
| src/utils/paths.py:34 | `folder_path.replace(parent_path, "")` deletes every occurrence of the parent path, including occurrences inside folder names further down. | The parent `/p` with folders `x/pq` and `xq`: both get the key `xq`, so one entry overwrites the other. The intended key for `x/pq` is `x_pq`. | Remove only the leading parent path, so that a key is the folder's path relative to the parent, joined by `_`. | high; not executed | `Paths.KeyCollision` | `Paths.IntendedKeyJoinsNames` |

`Paths.PathsDictionary` models the code as written. `Paths.IntendedPathsDict` builds the same walk with `Paths.IntendedFolderKey`, through the same `Record` and its lemmas. `Paths.IntendedPathsDictKeys` proves that every folder has an entry under its relative path joined by `_`. `Paths.IntendedPathsDictPairs` proves that each entry is stored under the intended key of its own path.
