/** writeSelections: for every selection, the reduced simfile of every selected window. */
module Materializer {
  import opened Wrappers
  import opened Sequences
  import opened Text
  import opened Simfile
  import Planner

  /** One lambda window of the full, sorted list: its formatted lambda value and the lines of
      its simfile. */
  datatype Window = Window(lambda: string, lines: seq<string>)

  /** The reduced simfile written for one selected window: the rows handed to the csv writer. */
  datatype WindowFile = WindowFile(lambda: string, rows: seq<seq<string>>)

  /** One `mbar_selection_<size>` directory: its indices and one reduced simfile per window. */
  datatype SelectionDir = SelectionDir(indices: seq<nat>, files: seq<WindowFile>)

  /** The lambda values of the selected windows, in order. */
  function LambdaArray(selected: seq<Window>): (r: seq<string>)
    ensures |r| == |selected| && forall k :: 0 <= k < |selected| ==> r[k] == selected[k].lambda
  {
    seq(|selected|, k requires 0 <= k < |selected| => selected[k].lambda)
  }

  function LineRewriter(selection: seq<nat>, lambdas: seq<string>): string -> Result<seq<string>, IndexError> {
    line => TransformLine(line, selection, lambdas)
  }

  /** All rows of one reduced simfile, or the error of its first line that cannot be reduced. */
  function TransformFile(lines: seq<string>, selection: seq<nat>, lambdas: seq<string>): Result<seq<seq<string>>, IndexError> {
    Traverse(lines, LineRewriter(selection, lambdas))
  }

  function ReduceWindow(w: Window, selection: seq<nat>, lambdas: seq<string>): Result<WindowFile, IndexError> {
    match TransformFile(w.lines, selection, lambdas)
    case Failure(e) => Failure(e)
    case Success(rows) => Success(WindowFile(w.lambda, rows))
  }

  function WindowReducer(selection: seq<nat>, lambdas: seq<string>): Window -> Result<WindowFile, IndexError> {
    w => ReduceWindow(w, selection, lambdas)
  }

  /** One selection: pick its windows (`np.take(simfiles, indices)`), then reduce each of them. */
  function MaterializeSelection(windows: seq<Window>, selection: seq<nat>): Result<SelectionDir, IndexError> {
    match Take(windows, selection)
    case Failure(e) => Failure(e)
    case Success(selected) =>
      match Traverse(selected, WindowReducer(selection, LambdaArray(selected)))
      case Failure(e) => Failure(e)
      case Success(files) => Success(SelectionDir(selection, files))
  }

  function SelectionWriter(windows: seq<Window>): seq<nat> -> Result<SelectionDir, IndexError> {
    selection => MaterializeSelection(windows, selection)
  }

  /** Every selection in the order the selection folders are visited; the first error ends the run. */
  function MaterializeAll(windows: seq<Window>, selections: seq<seq<nat>>): Result<seq<SelectionDir>, IndexError> {
    Traverse(selections, SelectionWriter(windows))
  }

  // ---------------------------------------------------------------------------------
  // The three nested loops of writeSelections

  /** The row loop: streams the lines of one simfile through the rewrite. */
  method WriteSimfile(lines: seq<string>, selection: seq<nat>, lambdas: seq<string>)
    returns (r: Result<seq<seq<string>>, IndexError>)
    ensures r == TransformFile(lines, selection, lambdas)
  {
    var f := LineRewriter(selection, lambdas);
    var rows: seq<seq<string>> := [];
    for i := 0 to |lines|
      invariant Traverse(lines[..i], f) == Success(rows)
    {
      var newRow := TransformLine(lines[i], selection, lambdas);
      TraverseExtend(lines, i, f, rows);
      if newRow.Failure? {
        return Failure(newRow.error);
      }
      rows := rows + [newRow.value];
    }
    assert lines[..|lines|] == lines;
    return Success(rows);
  }

  /** The window loop: one reduced simfile per selected window. */
  method WriteSelection(windows: seq<Window>, selection: seq<nat>) returns (r: Result<SelectionDir, IndexError>)
    ensures r == MaterializeSelection(windows, selection)
  {
    var picked := Take(windows, selection);
    if picked.Failure? {
      return Failure(picked.error);
    }
    var selected := picked.value;
    var lambdas := LambdaArray(selected);
    var f := WindowReducer(selection, lambdas);
    var files: seq<WindowFile> := [];
    for k := 0 to |selected|
      invariant Traverse(selected[..k], f) == Success(files)
    {
      var rows := WriteSimfile(selected[k].lines, selection, lambdas);
      TraverseExtend(selected, k, f, files);
      if rows.Failure? {
        return Failure(rows.error);
      }
      files := files + [WindowFile(selected[k].lambda, rows.value)];
    }
    assert selected[..|selected|] == selected;
    return Success(SelectionDir(selection, files));
  }

  /** The selection loop. */
  method WriteSelections(windows: seq<Window>, selections: seq<seq<nat>>)
    returns (r: Result<seq<SelectionDir>, IndexError>)
    ensures r == MaterializeAll(windows, selections)
  {
    var f := SelectionWriter(windows);
    var dirs: seq<SelectionDir> := [];
    for s := 0 to |selections|
      invariant Traverse(selections[..s], f) == Success(dirs)
    {
      var dir := WriteSelection(windows, selections[s]);
      TraverseExtend(selections, s, f, dirs);
      if dir.Failure? {
        return Failure(dir.error);
      }
      dirs := dirs + [dir.value];
    }
    assert selections[..|selections|] == selections;
    return Success(dirs);
  }

  // ---------------------------------------------------------------------------------
  // What a selection directory holds

  /** The lambda values of the windows at the selected positions, in selection order. */
  function SelectedLambdas(windows: seq<Window>, selection: seq<nat>): (r: seq<string>)
    requires Bounded(selection, |windows|)
    ensures |r| == |selection| && forall k :: 0 <= k < |selection| ==> r[k] == windows[selection[k]].lambda
  {
    seq(|selection|, k requires 0 <= k < |selection| => windows[selection[k]].lambda)
  }

  /** The lambda array of the windows `np.take` picks is the list of lambdas at the selected
      positions. */
  lemma LambdaArrayOfTake(windows: seq<Window>, selection: seq<nat>)
    requires Bounded(selection, |windows|)
    ensures Take(windows, selection).Success?
    ensures LambdaArray(Take(windows, selection).value) == SelectedLambdas(windows, selection)
  {
  }

  /** Every line of a simfile can be reduced for this selection. */
  predicate FileFits(lines: seq<string>, selection: seq<nat>) {
    forall i :: 0 <= i < |lines| ==> RowFits(lines[i], selection)
  }

  lemma TransformFileSucceeds(lines: seq<string>, selection: seq<nat>, lambdas: seq<string>)
    ensures TransformFile(lines, selection, lambdas).Success? <==> FileFits(lines, selection)
  {
    var f := LineRewriter(selection, lambdas);
    forall i | 0 <= i < |lines| ensures f(lines[i]).Success? <==> RowFits(lines[i], selection) {
      DataLineReduced(lines[i], selection, lambdas);
    }
  }

  /** A selection is written exactly when all its indices are window positions and every data
      row of every selected window has a u_kl column for each index. Then the directory has one
      file per selected window, in selection order, labelled with that window's lambda, and
      each file has one row per source line, rewritten with the selection's lambda array. */
  lemma MaterializeSelectionSpec(windows: seq<Window>, selection: seq<nat>)
    ensures var r := MaterializeSelection(windows, selection);
      r.Success? <==>
        Bounded(selection, |windows|) &&
        forall j :: 0 <= j < |selection| ==> FileFits(windows[selection[j]].lines, selection)
    ensures !Bounded(selection, |windows|) ==>
      MaterializeSelection(windows, selection).Failure? &&
      MaterializeSelection(windows, selection).error.size == |windows|
    ensures var r := MaterializeSelection(windows, selection);
      r.Success? ==>
        var d := r.value;
        d.indices == selection && |d.files| == |selection| &&
        forall j :: 0 <= j < |selection| ==>
          var w, file := windows[selection[j]], d.files[j];
          file.lambda == w.lambda && |file.rows| == |w.lines| &&
          forall i :: 0 <= i < |w.lines| ==>
            TransformLine(w.lines[i], selection, SelectedLambdas(windows, selection)) == Success(file.rows[i])
  {
    var picked := Take(windows, selection);
    if picked.Success? {
      var selected := picked.value;
      var lambdas := LambdaArray(selected);
      LambdaArrayOfTake(windows, selection);
      var g := WindowReducer(selection, lambdas);
      forall j | 0 <= j < |selected|
        ensures g(selected[j]).Success? <==> FileFits(selected[j].lines, selection)
      {
        TransformFileSucceeds(selected[j].lines, selection, lambdas);
      }
    }
  }

  // ---------------------------------------------------------------------------------
  // Planned selections on well-formed input

  /** Every data row of the window has 5 metadata fields and a u_kl value per window. */
  predicate WellFormedWindow(w: Window, windowCount: nat) {
    forall i :: 0 <= i < |w.lines| && !StartsWith(w.lines[i], HeaderMarker) ==>
      |Tokens(w.lines[i])| >= MetadataColumns + windowCount
  }

  /** A data row reduced to `selection`: the 5 metadata fields, then the u_kl value of each
      selected window in selection order. */
  predicate RowReduced(tokens: seq<string>, row: seq<string>, selection: seq<nat>) {
    |tokens| >= MetadataColumns && |row| == MetadataColumns + |selection| &&
    row[..MetadataColumns] == tokens[..MetadataColumns] &&
    forall k :: 0 <= k < |selection| ==>
      MetadataColumns + selection[k] < |tokens| && row[MetadataColumns + k] == tokens[MetadataColumns + selection[k]]
  }

  /** The reduced file agrees with the reduced window set: same lambda, one row per line,
      header lines copied, the declaration naming exactly `lambdas`, and data rows reduced
      to the selected columns. */
  predicate ReducedConsistently(w: Window, file: WindowFile, selection: seq<nat>, lambdas: seq<string>) {
    file.lambda == w.lambda && |file.rows| == |w.lines| &&
    forall i :: 0 <= i < |w.lines| ==>
      (Classify(w.lines[i]) == CommentLine ==> file.rows[i] == [w.lines[i]]) &&
      (Classify(w.lines[i]) == LambdaArrayLine ==>
        |file.rows[i]| == 1 && DeclaredLambdas(file.rows[i][0]) == Some(lambdas)) &&
      (Classify(w.lines[i]) == DataLine ==> RowReduced(Tokens(w.lines[i]), file.rows[i], selection))
  }

  lemma SelectionMaterializes(windows: seq<Window>, selection: seq<nat>)
    requires Bounded(selection, |windows|) && |selection| >= 1
    requires forall k :: 0 <= k < |windows| ==> WellFormedWindow(windows[k], |windows|)
    requires forall k :: 0 <= k < |windows| ==> ',' !in windows[k].lambda
    ensures MaterializeSelection(windows, selection).Success?
    ensures var d := MaterializeSelection(windows, selection).value;
      d.indices == selection && |d.files| == |selection| &&
      forall j :: 0 <= j < |selection| ==>
        ReducedConsistently(windows[selection[j]], d.files[j], selection, SelectedLambdas(windows, selection))
  {
    var lambdas := SelectedLambdas(windows, selection);
    forall j | 0 <= j < |selection| ensures FileFits(windows[selection[j]].lines, selection) {
      var lines := windows[selection[j]].lines;
      forall i | 0 <= i < |lines| ensures RowFits(lines[i], selection) {
        assert WellFormedWindow(windows[selection[j]], |windows|);
      }
    }
    MaterializeSelectionSpec(windows, selection);
    var d := MaterializeSelection(windows, selection).value;
    forall j | 0 <= j < |selection|
      ensures ReducedConsistently(windows[selection[j]], d.files[j], selection, lambdas)
    {
      var w, file := windows[selection[j]], d.files[j];
      forall i | 0 <= i < |w.lines|
        ensures (Classify(w.lines[i]) == CommentLine ==> file.rows[i] == [w.lines[i]]) &&
          (Classify(w.lines[i]) == LambdaArrayLine ==>
            |file.rows[i]| == 1 && DeclaredLambdas(file.rows[i][0]) == Some(lambdas)) &&
          (Classify(w.lines[i]) == DataLine ==> RowReduced(Tokens(w.lines[i]), file.rows[i], selection))
      {
        var line := w.lines[i];
        if Classify(line) == LambdaArrayLine {
          LambdaArrayLineRewritten(line, selection, lambdas);
        } else if Classify(line) == DataLine {
          assert WellFormedWindow(w, |windows|);
          DataLineReduced(line, selection, lambdas);
        }
      }
    }
  }

  /** Any planned selections, visited in any order, are all written for well-formed windows
      (one data column per window, lambda values without commas), and every reduced file is
      consistent with its selection. */
  lemma PlannedSelectionsMaterialize(windows: seq<Window>, selections: seq<seq<nat>>)
    requires forall k :: 0 <= k < |windows| ==> WellFormedWindow(windows[k], |windows|)
    requires forall k :: 0 <= k < |windows| ==> ',' !in windows[k].lambda
    requires forall s :: 0 <= s < |selections| ==> selections[s] in Planner.Plan(|windows|)
    ensures MaterializeAll(windows, selections).Success?
    ensures var dirs := MaterializeAll(windows, selections).value;
      |dirs| == |selections| &&
      forall s :: 0 <= s < |selections| ==>
        var sel := selections[s];
        dirs[s].indices == sel && |dirs[s].files| == |sel| && Bounded(sel, |windows|) &&
        forall j :: 0 <= j < |sel| ==>
          ReducedConsistently(windows[sel[j]], dirs[s].files[j], sel, SelectedLambdas(windows, sel))
  {
    var plan := Planner.Plan(|windows|);
    Planner.PlanWindowSets(|windows|);
    Planner.PlanSizes(|windows|);
    forall s | 0 <= s < |selections|
      ensures Bounded(selections[s], |windows|) && |selections[s]| >= 1
      ensures MaterializeSelection(windows, selections[s]).Success?
    {
      assert selections[s] in plan;
      var k :| 0 <= k < |plan| && plan[k] == selections[s];
      assert Planner.IsWindowSet(plan[k], |windows|);
      SelectionMaterializes(windows, selections[s]);
    }
    forall s | 0 <= s < |selections|
      ensures var sel := selections[s]; var d := MaterializeSelection(windows, sel).value;
        d.indices == sel && |d.files| == |sel| &&
        forall j :: 0 <= j < |sel| ==> ReducedConsistently(windows[sel[j]], d.files[j], sel, SelectedLambdas(windows, sel))
    {
      SelectionMaterializes(windows, selections[s]);
    }
  }
}
