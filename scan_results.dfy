/**
 * Static-analysis scan results, keyed by entry id, and the lookup that finds
 * the entry describing the function a label file is about. The scan data is
 * read once and never changed afterwards, so it is a value here.
 */
module ScanResults {
  import opened Wrappers

  /**
   * The fields of one scan entry the lookup reads; a field the entry does not
   * have is `None`.
   */
  datatype ScanEntry = ScanEntry(
    filepath: Option<string>,
    functionName: Option<string>,
    startLine: Option<int>,
    endLine: Option<int>)

  /**
   * What the file-name parser extracts from a path: the file name (empty when
   * the path does not have the expected shape), the data set, the problem,
   * the solution, the function and its first and last lines.
   */
  datatype FileParts = FileParts(
    filename: string,
    dataset: string,
    problem: string,
    solution: string,
    func: string,
    start: Option<int>,
    end: Option<int>)

  /** The scan data: entry ids and entries in the dictionary's iteration order. */
  datatype ScanData = ScanData(entries: seq<(string, ScanEntry)>)

  /** No id occurs twice, as in any dictionary. */
  ghost predicate DistinctIds(data: ScanData) {
    forall i, j :: 0 <= i < j < |data.entries| ==> data.entries[i].0 != data.entries[j].0
  }

  /** The entry stored under `id`, or `None` when there is none. */
  function Get(data: ScanData, id: string): (r: Option<ScanEntry>)
    ensures r.None? <==> forall k :: 0 <= k < |data.entries| ==> data.entries[k].0 != id
    ensures r.Some? ==> (id, r.value) in data.entries
    decreases |data.entries|
  {
    if data.entries == [] then None
    else if data.entries[0].0 == id then Some(data.entries[0].1)
    else
      var rest := Get(ScanData(data.entries[1..]), id);
      assert forall k :: 1 <= k < |data.entries| ==> data.entries[k] == data.entries[1..][k - 1];
      rest
  }

  /** With distinct ids, `Get` returns the one entry stored under the id. */
  lemma GetStored(data: ScanData, k: nat)
    requires DistinctIds(data) && k < |data.entries|
    ensures Get(data, data.entries[k].0) == Some(data.entries[k].1)
  {
    var id := data.entries[k].0;
    var e :| e == Get(data, id).value && (id, e) in data.entries;
    var j :| 0 <= j < |data.entries| && data.entries[j] == (id, e);
    assert j == k;
  }

  /**
   * An entry describes the label's function: it has a file path, a function
   * name and a non-zero start line; its path parses; and problem, solution,
   * function name, start line and end line all agree with the label's.
   */
  ghost predicate EntryMatches(e: ScanEntry, labelParts: FileParts, parseFilename: string -> FileParts) {
    && e.filepath.Some? && e.filepath.value != ""
    && labelParts.func != "" && e.functionName == Some(labelParts.func)
    && e.startLine.Some? && e.startLine.value != 0 && e.startLine == labelParts.start
    && var parts := parseFilename(e.filepath.value);
       && parts.filename != ""
       && parts.problem == labelParts.problem
       && parts.solution == labelParts.solution
       && e.endLine == labelParts.end
  }

  /**
   * The per-entry test, as a chain of skips: an entry missing a path, a
   * function name or a start line (0 counts as missing) is skipped, so is
   * one whose path does not parse, then each field is compared in turn.
   */
  function Examine(e: ScanEntry, labelParts: FileParts, parseFilename: string -> FileParts): (matched: bool)
    ensures matched <==> EntryMatches(e, labelParts, parseFilename)
  {
    if e.filepath.None? || e.filepath.value == ""
       || e.functionName.None? || e.functionName.value == ""
       || e.startLine.None? || e.startLine.value == 0 then false
    else
      var parts := parseFilename(e.filepath.value);
      if parts.filename == "" then false
      else if parts.problem != labelParts.problem then false
      else if parts.solution != labelParts.solution then false
      else if e.functionName.value != labelParts.func then false
      else if e.startLine != labelParts.start then false
      else if e.endLine != labelParts.end then false
      else true
  }

  /** The id of the first of `entries` that matches the label, if any. */
  function Search(entries: seq<(string, ScanEntry)>, labelParts: FileParts, parseFilename: string -> FileParts): (r: Option<string>)
    ensures r.None? <==> forall k :: 0 <= k < |entries| ==> !EntryMatches(entries[k].1, labelParts, parseFilename)
    ensures r.Some? ==> exists k :: 0 <= k < |entries| && entries[k].0 == r.value
                                && EntryMatches(entries[k].1, labelParts, parseFilename)
                                && forall j :: 0 <= j < k ==> !EntryMatches(entries[j].1, labelParts, parseFilename)
    decreases |entries|
  {
    if entries == [] then None
    else if Examine(entries[0].1, labelParts, parseFilename) then Some(entries[0].0)
    else
      var rest := Search(entries[1..], labelParts, parseFilename);
      assert forall k :: 1 <= k < |entries| ==> entries[k] == entries[1..][k - 1];
      rest
  }

  /**
   * The id of the scan entry that describes the function of a label file:
   * `None` when the label path does not parse, and otherwise the first entry,
   * in iteration order, that matches it, or `None` when none does.
   */
  function FindFunScanResults(data: ScanData, labelPath: string, parseFilename: string -> FileParts): (r: Option<string>)
    ensures parseFilename(labelPath).filename == "" ==> r.None?
    ensures parseFilename(labelPath).filename != "" ==>
      (r.None? <==> forall k :: 0 <= k < |data.entries| ==> !EntryMatches(data.entries[k].1, parseFilename(labelPath), parseFilename))
    ensures r.Some? ==> exists k :: 0 <= k < |data.entries| && data.entries[k].0 == r.value
                                && EntryMatches(data.entries[k].1, parseFilename(labelPath), parseFilename)
                                && forall j :: 0 <= j < k ==> !EntryMatches(data.entries[j].1, parseFilename(labelPath), parseFilename)
  {
    var labelParts := parseFilename(labelPath);
    if labelParts.filename == "" then None
    else Search(data.entries, labelParts, parseFilename)
  }

  /** The id the search returns is a key whose stored entry matches the label. */
  lemma FoundEntryMatches(data: ScanData, labelPath: string, parseFilename: string -> FileParts)
    requires DistinctIds(data)
    requires FindFunScanResults(data, labelPath, parseFilename).Some?
    ensures var id := FindFunScanResults(data, labelPath, parseFilename).value;
      Get(data, id).Some? && EntryMatches(Get(data, id).value, parseFilename(labelPath), parseFilename)
  {
    var id := FindFunScanResults(data, labelPath, parseFilename).value;
    var k :| 0 <= k < |data.entries| && data.entries[k].0 == id
             && EntryMatches(data.entries[k].1, parseFilename(labelPath), parseFilename);
    GetStored(data, k);
  }
}
