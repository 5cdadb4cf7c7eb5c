/** findSimfiles: the checks made on the discovered simfiles before any selection is planned. */
module Discovery {
  import opened Wrappers

  /** A simfile with fewer lines than this holds no simulation output. */
  const MinSimfileLines: nat := 50

  /** One simfile found under a lambda folder, already in sorted order, with the number of lines it has. */
  datatype Simfile = Simfile(path: string, lineCount: nat)

  datatype DiscoveryError =
    | SimfileCountMismatch(simfiles: nat, folders: nat)
    | SimfileTooShort(path: string, lineCount: nat)

  /** The inputs pass both checks: one simfile per lambda folder, each long enough. */
  predicate SimfilesValid(folderCount: nat, lineCounts: seq<nat>) {
    |lineCounts| == folderCount &&
    forall i :: 0 <= i < |lineCounts| ==> lineCounts[i] >= MinSimfileLines
  }

  function LineCounts(simfiles: seq<Simfile>): (r: seq<nat>)
    ensures |r| == |simfiles| && forall i :: 0 <= i < |simfiles| ==> r[i] == simfiles[i].lineCount
  {
    seq(|simfiles|, i requires 0 <= i < |simfiles| => simfiles[i].lineCount)
  }

  /** The checks of findSimfiles, in its order: the count first, then each file in turn; the
      first failing check is the exception raised. */
  method FindSimfiles(folderCount: nat, simfiles: seq<Simfile>) returns (r: Result<seq<Simfile>, DiscoveryError>)
    ensures r.Success? <==> SimfilesValid(folderCount, LineCounts(simfiles))
    ensures r.Success? ==> r.value == simfiles
    ensures |simfiles| != folderCount ==> r == Failure(SimfileCountMismatch(|simfiles|, folderCount))
    ensures |simfiles| == folderCount && r.Failure? ==>
      r.error.SimfileTooShort? &&
      exists i :: 0 <= i < |simfiles| && r.error == SimfileTooShort(simfiles[i].path, simfiles[i].lineCount) &&
        simfiles[i].lineCount < MinSimfileLines &&
        forall j :: 0 <= j < i ==> simfiles[j].lineCount >= MinSimfileLines
  {
    if |simfiles| != folderCount {
      return Failure(SimfileCountMismatch(|simfiles|, folderCount));
    }
    for i := 0 to |simfiles|
      invariant forall j :: 0 <= j < i ==> simfiles[j].lineCount >= MinSimfileLines
    {
      var numLines := simfiles[i].lineCount;
      if numLines < MinSimfileLines {
        return Failure(SimfileTooShort(simfiles[i].path, numLines));
      }
    }
    return Success(simfiles);
  }
}
