/** The rewrite of one simfile line for a lambda-window selection: header lines are copied,
    the lambda-array declaration is replaced, and data rows keep their metadata columns and
    only the selected u_kl columns. */
module Simfile {
  import opened Wrappers
  import opened Sequences
  import opened Text

  /** Every data row starts with this many metadata fields before its u_kl values. */
  const MetadataColumns: nat := 5
  /** Lines starting with this belong to the header. */
  const HeaderMarker: string := "#"
  /** The header line that declares the lambda array. */
  const LambdaArrayMarker: string := "#Alchemical array is"
  /** What the rewritten declaration starts with: the marker, two tabs, a blank, a parenthesis. */
  const LambdaArrayPrefix: string := "#Alchemical array is\t\t ("

  datatype LineKind = LambdaArrayLine | CommentLine | DataLine

  function Classify(line: string): LineKind {
    if StartsWith(line, HeaderMarker) then
      if StartsWith(line, LambdaArrayMarker) then LambdaArrayLine else CommentLine
    else DataLine
  }

  /** The new declaration for the given (already formatted) lambda values. */
  function LambdaArrayHeader(lambdas: seq<string>): string {
    LambdaArrayPrefix + JoinComma(lambdas) + ")"
  }

  /** The lambda values a reader finds in a declaration written with the fixed prefix. */
  function DeclaredLambdas(line: string): Option<seq<string>> {
    if StartsWith(line, LambdaArrayPrefix) && |line| > |LambdaArrayPrefix| && line[|line| - 1] == ')'
    then Some(SplitComma(line[|LambdaArrayPrefix|..|line| - 1]))
    else None
  }

  /** The rewritten declaration is itself a lambda-array line and declares exactly the given
      values, one entry per selected window, in order. */
  lemma LambdaArrayHeaderRoundTrip(lambdas: seq<string>)
    requires |lambdas| >= 1
    requires forall k :: 0 <= k < |lambdas| ==> ',' !in lambdas[k]
    ensures Classify(LambdaArrayHeader(lambdas)) == LambdaArrayLine
    ensures DeclaredLambdas(LambdaArrayHeader(lambdas)) == Some(lambdas)
  {
    var line := LambdaArrayHeader(lambdas);
    assert line[..|LambdaArrayPrefix|] == LambdaArrayPrefix;
    assert line[..|LambdaArrayMarker|] == LambdaArrayMarker;
    assert line[..|HeaderMarker|] == HeaderMarker;
    assert line[|LambdaArrayPrefix|..|line| - 1] == JoinComma(lambdas);
    SplitJoinComma(lambdas);
  }

  /** How many metadata fields a row of `tokens` actually has: `len(row_values[:5])`. */
  function MetadataWidth(tokens: seq<string>): (m: nat)
    ensures m <= |tokens| && m <= MetadataColumns
    ensures m == MetadataColumns || m == |tokens|
  {
    if |tokens| < MetadataColumns then |tokens| else MetadataColumns
  }

  /** `row_values[:5] + list(np.take(row_values[5:], selection))`. */
  function ReduceRow(tokens: seq<string>, selection: seq<nat>): (r: Result<seq<string>, IndexError>)
    ensures r.Success? <==> forall j :: 0 <= j < |selection| ==> MetadataColumns + selection[j] < |tokens|
    ensures r.Success? ==>
      var m := MetadataWidth(tokens);
      |r.value| == m + |selection| && r.value[..m] == tokens[..m] &&
      forall j :: 0 <= j < |selection| ==> r.value[m + j] == tokens[MetadataColumns + selection[j]]
    ensures r.Failure? ==> r.error.size == |tokens| - MetadataWidth(tokens) <= r.error.index
  {
    var m := MetadataWidth(tokens);
    match Take(tokens[m..], selection)
    case Success(values) => Success(tokens[..m] + values)
    case Failure(e) => Failure(e)
  }

  /** Selecting every u_kl column gives the row back unchanged. */
  lemma ReduceRowFullRange(tokens: seq<string>)
    ensures ReduceRow(tokens, Range(|tokens| - MetadataWidth(tokens))) == Success(tokens)
  {
    var m := MetadataWidth(tokens);
    TakeRange(tokens[m..]);
    assert tokens[..m] + tokens[m..] == tokens;
  }

  /** What writeSelections hands to the csv writer for one line of a simfile. */
  function TransformLine(line: string, selection: seq<nat>, lambdas: seq<string>): Result<seq<string>, IndexError> {
    match Classify(line)
    case LambdaArrayLine => Success([LambdaArrayHeader(lambdas)])
    case CommentLine => Success([line])
    case DataLine => ReduceRow(Tokens(line), selection)
  }

  /** Header lines other than the declaration are passed on as one unchanged field. */
  lemma CommentLineCopied(line: string, selection: seq<nat>, lambdas: seq<string>)
    requires StartsWith(line, HeaderMarker) && !StartsWith(line, LambdaArrayMarker)
    ensures TransformLine(line, selection, lambdas) == Success([line])
  {
  }

  /** The declaration, whatever its rest, becomes one field declaring exactly `lambdas`. */
  lemma LambdaArrayLineRewritten(line: string, selection: seq<nat>, lambdas: seq<string>)
    requires StartsWith(line, LambdaArrayMarker)
    requires |lambdas| >= 1
    requires forall k :: 0 <= k < |lambdas| ==> ',' !in lambdas[k]
    ensures TransformLine(line, selection, lambdas).Success?
    ensures var row := TransformLine(line, selection, lambdas).value;
      |row| == 1 && StartsWith(row[0], LambdaArrayPrefix) && DeclaredLambdas(row[0]) == Some(lambdas)
  {
    assert line[..|HeaderMarker|] == line[..|LambdaArrayMarker|][..|HeaderMarker|];
    LambdaArrayHeaderRoundTrip(lambdas);
  }

  /** Whether a data line has a u_kl column for every selected index. */
  predicate RowFits(line: string, selection: seq<nat>) {
    !StartsWith(line, HeaderMarker) ==>
      forall j :: 0 <= j < |selection| ==> MetadataColumns + selection[j] < |Tokens(line)|
  }

  /** A line is rewritten exactly when it is a header line or a data line with enough columns;
      a rewritten data row has 5 + |selection| fields, carries the selected u_kl values in
      selection order, and is read back field for field once written tab-separated. */
  lemma {:induction false} DataLineReduced(line: string, selection: seq<nat>, lambdas: seq<string>)
    ensures TransformLine(line, selection, lambdas).Success? <==> RowFits(line, selection)
    ensures (!StartsWith(line, HeaderMarker) && TransformLine(line, selection, lambdas).Success? &&
             |Tokens(line)| >= MetadataColumns) ==>
      var tokens, row := Tokens(line), TransformLine(line, selection, lambdas).value;
      |row| == MetadataColumns + |selection| &&
      row[..MetadataColumns] == tokens[..MetadataColumns] &&
      (forall j :: 0 <= j < |selection| ==> row[MetadataColumns + j] == tokens[MetadataColumns + selection[j]]) &&
      Tokens(JoinTab(row)) == row
  {
    if !StartsWith(line, HeaderMarker) {
      var r := ReduceRow(Tokens(line), selection);
      if r.Success? {
        ReducedRowWords(Tokens(line), selection);
        TokensJoinTab(r.value);
      }
    }
  }

  /** A reduced row consists of fields of the original row, so none is empty or holds whitespace. */
  lemma ReducedRowWords(tokens: seq<string>, selection: seq<nat>)
    requires forall k :: 0 <= k < |tokens| ==> IsWord(tokens[k])
    requires ReduceRow(tokens, selection).Success?
    ensures forall k :: 0 <= k < |ReduceRow(tokens, selection).value| ==> IsWord(ReduceRow(tokens, selection).value[k])
  {
    var row := ReduceRow(tokens, selection).value;
    var m := MetadataWidth(tokens);
    forall k | 0 <= k < |row| ensures IsWord(row[k]) {
      if k < m {
        assert row[k] == row[..m][k] == tokens[k];
      } else {
        assert row[k] == tokens[MetadataColumns + selection[k - m]];
      }
    }
  }

  /** Keeping every window reproduces a data row's fields unchanged. */
  lemma DataLineFullRange(line: string, lambdas: seq<string>)
    requires !StartsWith(line, HeaderMarker)
    ensures TransformLine(line, Range(|Tokens(line)| - MetadataWidth(Tokens(line))), lambdas) == Success(Tokens(line))
  {
    ReduceRowFullRange(Tokens(line));
  }
}
