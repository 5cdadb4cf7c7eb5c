# mbar_sampler in Dafny

`mbar_sampler.py` takes a SOMD output folder with one `lambda_*` directory per alchemical
lambda window. Each window holds a `simfile.dat`. From these it builds nested subsets of the
windows, for running MBAR on each subset. This project models the core of that script:

- **Discovery** (`discovery.dfy`): the checks `findSimfiles` makes before anything is planned.
  There must be one simfile per lambda folder, and every simfile must have at least 50 lines.
  The first failing check is the exception raised.
- **Planner** (`planner.dfy`): the `generateSelections` loop. It starts from the full index
  list `[0 .. N-1]`. While the current list has at least three indices, it emits the list and
  replaces it with its even-position elements (`[0::2]`). A cap of 100 iterations bounds the
  loop. The plan is proved to:
  - emit nothing below three windows, and otherwise start with the full range;
  - compound the decimation from the previous survivors (9 → 5 → 3);
  - emit only strictly increasing selections that start at 0 and stay below N;
  - emit strictly decreasing sizes, so the `mbar_selection_<size>` directory names never
    collide;
  - match a closed form: selection k is exactly the multiples of 2^k below N.
- **Simfile** (`simfile.dfy`, with the string helpers in `text.dfy`): the per-line rewrite
  inside `writeSelections`.
  - Header lines (`#...`) are copied.
  - The `#Alchemical array is` line is replaced by a fixed prefix and the new lambda list.
  - A data row is split on whitespace. It keeps its first five fields, then only the u_kl
    columns at the selected positions, in selection order (`np.take`). An index past the
    row's u_kl columns raises `IndexError`.
- **Materializer** (`materializer.dfy`): the three nested loops of `writeSelections`, over
  selections, selected windows and lines. Each loop is a method whose result equals a
  specification function. Any `IndexError` ends the run. The lemmas say when a selection is
  written and what each reduced file then holds. They also show that every planned selection
  is written consistently when the input rows are well formed.
- `sequences.dfy` holds `range`, the `[0::2]` slice and `numpy.take`. `wrappers.dfy` holds
  `Option`, `Result` and a first-failure traversal.

Three points of `mbar_sampler.py`'s behaviour that the model keeps as written:

- The rewritten lambda declaration always starts with the fixed text of line 98:
  `#Alchemical array is`, two tabs, a blank and `(`. The original line's own prefix is not kept.
- An `IndexError` raised by `np.take` at line 75 or at line 110 propagates out of
  `writeSelections` and ends the whole run, not only the subset being written.
- A data row with fewer than five fields is not rejected by a test of its own. It fails only
  because `np.take` raises on its empty u_kl part for a non-empty selection, and every planned
  selection is non-empty.

## Model

| member | source | states |
|---|---|---|
| `Discovery.SimfilesValid` | mbar_sampler.py:20-27 | one simfile per lambda folder and at least 50 lines in each; `FindSimfiles` succeeds exactly when it holds |
| `Discovery.FindSimfiles` | mbar_sampler.py:14-29 | succeeds, returning the simfiles unchanged, exactly when their number equals the folder count and all have at least 50 lines; a count mismatch is reported first; otherwise the error names the first simfile with fewer than 50 lines |
| `Planner.PlanFrom` | mbar_sampler.py:43-63 | the loop as a function of the current index list and the iterations left: emit the list and continue with its even positions while it has 3 or more indices; characterised by `PlanFromStep`, `PlanFromSizes`, `PlanFromStops` and `PlanFromMultiples` |
| `Planner.Plan` | mbar_sampler.py:40-63 | the selections emitted for N windows, starting from `range(N)` with the 100-iteration budget; characterised by the `Plan...` lemmas below |
| `Planner.GenerateSelections` | mbar_sampler.py:36-63 | the bounded loop emits exactly `Plan(windowCount)`: the list is emitted while it has 3 or more indices, then replaced by its even positions, for at most 100 iterations |
| `Planner.PlanStart` | mbar_sampler.py:40-45 | the plan is empty exactly when there are fewer than 3 windows; otherwise its first selection is `[0, ..., N-1]` |
| `Planner.PlanStep` | mbar_sampler.py:60 | each later selection is the even-position elements of the previous one, with `ceil(len / 2)` elements |
| `Planner.PlanLength` | mbar_sampler.py:43 | no more than 100 selections are emitted |
| `Planner.PlanSizes` | mbar_sampler.py:45-60 | every selection has at least 3 indices and sizes strictly decrease along the plan |
| `Planner.SelectionPath` | mbar_sampler.py:50 | `"./mbar_selections/mbar_selection_" + str(size)`; characterised by `SelectionPathInjective` |
| `Planner.PlanPathsDistinct` | mbar_sampler.py:49-52 | no two selections get the same `./mbar_selections/mbar_selection_<size>` directory |
| `Planner.SelectionPathInjective` | mbar_sampler.py:50 | two directory names are equal exactly when the sizes are equal |
| `Planner.DecimalStringInjective` | mbar_sampler.py:50 | `str` of a non-negative int is injective |
| `Planner.DecimalString` | mbar_sampler.py:50 | `str` of an int has at least one digit, two or more from 10 on |
| `Planner.PlanWindowSets` | mbar_sampler.py:40-60 | every selection is strictly increasing, starts with window 0 and lies within `[0, N)` |
| `Planner.PlanStops` | mbar_sampler.py:43-63 | unless the 100-iteration cap is reached, the loop ends because the next candidate has fewer than 3 indices (or there were fewer than 3 windows) |
| `Planner.PlanMultiples` | mbar_sampler.py:40-60 | the k-th selection equals the list of multiples of 2^k below N, in increasing order |
| `Planner.PlanClosedForm` | mbar_sampler.py:40-60 | the k-th selection has `ceil(N / 2^k)` elements, and its element j is j·2^k, which is below N |
| `Planner.PlanFiveWindows` | mbar_sampler.py:40-63 | 5 windows give the selections `[0,1,2,3,4]` and `[0,2,4]`, and then the loop stops |
| `Planner.PlanNineWindows` | mbar_sampler.py:40-63 | 9 windows give sizes 9, 5 and 3, the last selection being `[0,4,8]` |
| `Sequences.Range` | mbar_sampler.py:40 | `np.array(range(n))`: n elements, element i being i |
| `Sequences.EvenPositions` | mbar_sampler.py:60 | the `[0::2]` slice has `ceil(n / 2)` elements, element i being the input's element 2i |
| `Sequences.Take` | mbar_sampler.py:110 | `np.take` succeeds exactly when every index is in range, giving the values at the indices in index order; otherwise an `IndexError`, which the model labels with the first out-of-range index and the axis size (for a non-empty axis numpy names the same two) |
| `Sequences.TakeRange` | mbar_sampler.py:110 | taking every position in order returns the values unchanged |
| `Wrappers.Traverse` | mbar_sampler.py:91-114 | a loop over items succeeds exactly when every item succeeds, collecting the results in order; otherwise it fails with the first failing item's error |
| `Text.StartsWith` | mbar_sampler.py:92-94 | `str.startswith`: the prefix is no longer than the line and equals its first characters |
| `Text.IsSpace` | mbar_sampler.py:105 | the ASCII characters `split()` treats as whitespace; `Tokenized` fixes the split they induce |
| `Text.JoinTab` | mbar_sampler.py:89 | the fields joined by the writer's tab delimiter, without escaping; read back by `TokensJoinTab` |
| `Text.SplitJoinComma` | mbar_sampler.py:97 | a non-empty `', '.join` of comma-free entries reads back as exactly those entries |
| `Text.Tokens` | mbar_sampler.py:105 | `rsplit()` yields non-empty fields without whitespace; `Tokenized` fixes which fields |
| `Text.Tokenized` | mbar_sampler.py:105 | `rsplit()` of any line made of optional leading whitespace, words separated by non-empty whitespace runs, and optional trailing whitespace gives exactly those words, in order |
| `Text.TokensJoinTab` | mbar_sampler.py:89-114 | splitting a tab-separated row of non-empty, whitespace-free fields gives back the same fields |
| `Text.JoinComma` | mbar_sampler.py:97 | `', '.join` of the entries; read back by `SplitJoinComma` |
| `Simfile.Classify` | mbar_sampler.py:92-94 | a line is the lambda-array line if it starts with `#Alchemical array is`, else a comment if it starts with `#`, else a data row; used by `CommentLineCopied`, `LambdaArrayLineRewritten` and `DataLineReduced` |
| `Simfile.LambdaArrayHeader` | mbar_sampler.py:97-98 | the fixed prefix, the `', '`-joined lambda values and `)`; characterised by `LambdaArrayHeaderRoundTrip` |
| `Simfile.LambdaArrayHeaderRoundTrip` | mbar_sampler.py:97-98 | the new declaration is again a lambda-array header line and declares exactly the given lambda values, in order |
| `Simfile.ReduceRow` | mbar_sampler.py:105-111 | the reduced row exists exactly when each selected index addresses a u_kl column; it then holds the row's metadata fields followed by the u_kl value of each selected window, in selection order; otherwise an `IndexError`, labelled with an index at or beyond the number of u_kl columns |
| `Simfile.ReduceRowFullRange` | mbar_sampler.py:105-111 | selecting every u_kl column returns the row unchanged |
| `Simfile.ReducedRowWords` | mbar_sampler.py:105-111 | if every token of the row is a word, every field of the reduced row is a word: non-empty and without whitespace |
| `Simfile.MetadataWidth` | mbar_sampler.py:106 | `row_values[:5]` has 5 fields, or all of them for a shorter row |
| `Simfile.TransformLine` | mbar_sampler.py:92-114 | the row-loop body: the rewrite of one line as the fields handed to `writerow`, or the `IndexError` of `np.take`; characterised by `CommentLineCopied`, `LambdaArrayLineRewritten` and `DataLineReduced` |
| `Simfile.CommentLineCopied` | mbar_sampler.py:92-101 | a `#` line other than the lambda-array line is written as one unchanged field |
| `Simfile.LambdaArrayLineRewritten` | mbar_sampler.py:94-99 | a line starting `#Alchemical array is` becomes a single field with the fixed prefix; for a non-empty list of comma-free lambda values it declares exactly those values |
| `Simfile.DataLineReduced` | mbar_sampler.py:102-114 | a line is rewritten exactly when it is a header line or a data row with a column for every selected index; a rewritten data row with at least 5 fields has 5 + len(selection) fields, keeps the metadata, holds u_kl value `selection[j]` at position 5 + j, and reads back field for field once written tab-separated |
| `Simfile.DataLineFullRange` | mbar_sampler.py:105-111 | with the full selection, a data row's fields come back unchanged |
| `Materializer.LambdaArray` | mbar_sampler.py:75-79 | the lambda array has one entry per selected window, in order |
| `Materializer.SelectedLambdas` | mbar_sampler.py:75-79 | the lambda values of the windows at the selected positions, in selection order |
| `Materializer.TransformFile` | mbar_sampler.py:91-114 | each line's rewrite in order, or the first line's `IndexError`; characterised by `TransformFileSucceeds` |
| `Materializer.ReduceWindow` | mbar_sampler.py:83-114 | one selected window's reduced simfile, labelled with its lambda, or the first row's `IndexError`; characterised by `MaterializeSelectionSpec` |
| `Materializer.MaterializeSelection` | mbar_sampler.py:73-114 | one selection: `np.take` on the windows, then one reduced file per selected window; characterised by `MaterializeSelectionSpec` and `SelectionMaterializes` |
| `Materializer.MaterializeAll` | mbar_sampler.py:70-114 | every selection in the order given, stopping at the first error; characterised by `PlannedSelectionsMaterialize` |
| `Materializer.WriteSimfile` | mbar_sampler.py:88-114 | the row loop writes exactly `TransformFile`: each line's rewrite in order, or the first line's `IndexError` |
| `Materializer.WriteSelection` | mbar_sampler.py:73-114 | the window loop selects the windows with `np.take` and writes one reduced simfile per selected window, in order; an out-of-range window index or row is the error |
| `Materializer.WriteSelections` | mbar_sampler.py:70-114 | the selection loop writes every selection in the order given, stopping at the first error |
| `Materializer.LambdaArrayOfTake` | mbar_sampler.py:75-76 | the lambda array of the windows `np.take` picks equals the lambdas at the selected positions, in selection order |
| `Materializer.TransformFileSucceeds` | mbar_sampler.py:91-114 | a simfile is reduced without error exactly when every data row has a column for each selected index |
| `Materializer.MaterializeSelectionSpec` | mbar_sampler.py:73-114 | a selection is written exactly when its indices are window positions and every data row of each selected window has the selected columns; an index beyond the windows fails with an `IndexError` labelled with the window count as axis size; the result has one file per selected window, labelled with its lambda, with each row being its line's rewrite under the selection's lambda array |
| `Materializer.SelectionMaterializes` | mbar_sampler.py:73-114 | for a non-empty in-range selection over well-formed windows, every reduced file copies comments, declares exactly the selected lambdas, and reduces each data row to the selected columns |
| `Materializer.PlannedSelectionsMaterialize` | mbar_sampler.py:120-126 | selections from the plan, visited in any order, are all written without error when every data row has 5 + N fields, and every reduced file agrees with its selection |

## Left out

- Discovery with `glob`, `os.mkdir`/`os.path.exists` and the reading of files is file-system I/O. The model takes the simfiles with their line counts, and each window's lines, as inputs.
- `simfiles.sort()` is not modelled. The simfiles are taken as already sorted. Window order by lambda value is not modelled either, because lambda values are opaque strings.
- Writing and re-reading `indices.txt` (`np.savetxt`/`np.loadtxt`) is file I/O. The selections go straight to the writer, in any order. Selection folders left in `mbar_selections/` by an earlier run (lines 33 and 51 keep existing folders, and the glob at line 67 lists them) are not modelled. `Materializer.PlannedSelectionsMaterialize` covers only the selections of the current plan; a stale folder for more windows than exist now makes `np.take` at line 75 raise.
- Taking lambda values out of path names, and the `float`/`round(…, 4)`/`str` formatting, is floating-point text handling. The lambda values are given, already formatted, as opaque strings.
- The csv writer's escaping (`QUOTE_NONE` with a blank as escape character) and its line terminators are library behaviour. A written line is modelled as the list of fields handed to `writerow`, joined by tabs without escaping.
- The `analyse_freenrg` call through `subprocess.call` is a foreign process, and the `print` diagnostics are output only.
- Text.TokensJoinTab: its fields may contain `"`, which the csv writer would prefix with a blank, so for such a field the written line does not read back field for field; the lemma is about the tab join without escaping.
- Text.Tokens: treats only ASCII whitespace (tab, line feed, vertical tab, form feed, carriage return, the separators 0x1C to 0x1F, and blank) as separators. Python's `split()` also splits on non-ASCII Unicode whitespace.
- Materializer.WriteSelections, Materializer.WriteSelection and Materializer.WriteSimfile: on an error they return only the error. The files already written before the exception, and the MBAR runs of earlier selections, are not part of the result.
- Sequences.Take: the error's index and axis size are the model's own label for the `IndexError`. numpy names them only for a non-empty axis; on an empty axis (a data row with exactly 5 fields, or no windows at all) it raises "cannot do a non-empty take from an empty axes", which names no index. Whether the call fails is modelled exactly.
- Negative indices in `np.take` are not modelled: the model's selections are natural numbers, as the planner produces.
