/**
 * The checkpoint log: a partition's output file, read once at start-up to
 * compute the resume set and afterwards only appended to.
 */
module Checkpoint {
  import opened Wrappers
  import opened Records

  /** One line of an output log, as the resume scan decodes it. */
  datatype LogLine<P> =
    | Undecodable                       // not valid JSON: skipped
    | NonObject                         // valid JSON but not an object: reading its `task_id` raises
    | UnhashableId                      // an object whose `task_id` is a non-empty list or object: adding it raises
    | Object(taskId: Option<string>)    // a JSON object and its `task_id` field, if it has one
    | Written(record: ResultRecord<P>)  // a result record this executor appended

  /** The id a line contributes to the resume set: its `task_id`, when that is present and not empty. */
  function LoggedId<P>(line: LogLine<P>): Option<string> {
    match line
    case Object(Some(id)) => if id != "" then Some(id) else None
    case Written(r) => if r.task.taskId != "" then Some(r.task.taskId) else None
    case _ => None
  }

  /** Every non-empty task id some line of the log carries. */
  ghost function ResumeIds<P>(lines: seq<LogLine<P>>): set<string> {
    set i | 0 <= i < |lines| && LoggedId(lines[i]).Some? :: LoggedId(lines[i]).value
  }

  /**
   * Reading this line raises an exception other than a decoding error: its
   * `.get` fails, or its `task_id` cannot be put in a set.
   */
  predicate ScanRaises<P>(line: LogLine<P>) {
    line.NonObject? || line.UnhashableId?
  }

  /** A log the resume scan cannot finish: reading one of its lines raises. */
  ghost predicate Unreadable<P>(lines: seq<LogLine<P>>) {
    exists i :: 0 <= i < |lines| && ScanRaises(lines[i])
  }

  /** The resume set of a log, or `None` when reading it raises. */
  ghost function ResumeSet<P>(lines: seq<LogLine<P>>): Option<set<string>> {
    if Unreadable(lines) then None else Some(ResumeIds(lines))
  }

  /** The lines appended for the given result records, in order. */
  function WrittenLines<P>(records: seq<ResultRecord<P>>): (lines: seq<LogLine<P>>)
    ensures |lines| == |records|
    decreases |records|
  {
    if records == [] then []
    else WrittenLines(records[..|records| - 1]) + [Written(records[|records| - 1])]
  }

  lemma WrittenLinesSnoc<P>(records: seq<ResultRecord<P>>, r: ResultRecord<P>)
    ensures WrittenLines(records + [r]) == WrittenLines(records) + [Written(r)]
  {
    assert (records + [r])[..|records|] == records;
  }

  /** The non-empty task ids of the given result records. */
  ghost function RecordedIds<P>(records: seq<ResultRecord<P>>): set<string> {
    set r | r in records && r.task.taskId != "" :: r.task.taskId
  }

  lemma ResumeIdsSnoc<P>(lines: seq<LogLine<P>>, line: LogLine<P>)
    ensures ResumeIds(lines + [line])
         == ResumeIds(lines) + (if LoggedId(line).Some? then {LoggedId(line).value} else {})
  {
    var all := lines + [line];
    forall x | x in ResumeIds(all)
      ensures x in ResumeIds(lines) || (LoggedId(line).Some? && x == LoggedId(line).value)
    {
      var i :| 0 <= i < |all| && LoggedId(all[i]).Some? && LoggedId(all[i]).value == x;
      if i < |lines| {
        assert all[i] == lines[i];
      }
    }
    forall x | x in ResumeIds(lines) ensures x in ResumeIds(all) {
      var i :| 0 <= i < |lines| && LoggedId(lines[i]).Some? && LoggedId(lines[i]).value == x;
      assert all[i] == lines[i];
    }
    if LoggedId(line).Some? {
      assert all[|lines|] == line;
    }
  }

  lemma UnreadableSnoc<P>(lines: seq<LogLine<P>>, line: LogLine<P>)
    ensures Unreadable(lines + [line]) <==> Unreadable(lines) || ScanRaises(line)
  {
    var all := lines + [line];
    if Unreadable(lines) {
      var i :| 0 <= i < |lines| && ScanRaises(lines[i]);
      assert all[i] == lines[i];
    }
    if Unreadable(all) && !ScanRaises(line) {
      var i :| 0 <= i < |all| && ScanRaises(all[i]);
      assert i < |lines| && all[i] == lines[i];
    }
    if ScanRaises(line) {
      assert all[|lines|] == line;
    }
  }

  /**
   * The resume scan: reads the log line by line, skips lines that are not
   * JSON, collects the non-empty `task_id`s, and raises at the first line that
   * is JSON but not an object, or whose `task_id` is a non-empty list or object.
   */
  method ComputeResumeSet<P>(lines: seq<LogLine<P>>) returns (r: Option<set<string>>)
    ensures r == ResumeSet(lines)
  {
    var ids: set<string> := {};
    for i := 0 to |lines|
      invariant ids == ResumeIds(lines[..i])
      invariant !Unreadable(lines[..i])
    {
      assert lines[..i + 1] == lines[..i] + [lines[i]];
      ResumeIdsSnoc(lines[..i], lines[i]);
      UnreadableSnoc(lines[..i], lines[i]);
      if ScanRaises(lines[i]) {
        assert lines[i] == lines[..i + 1][i];
        r := None;
        return;
      }
      var id := LoggedId(lines[i]);
      if id.Some? {
        ids := ids + {id.value};
      }
    }
    assert lines[..|lines|] == lines;
    r := Some(ids);
  }

  /** A line that is not JSON changes nothing about the resume scan. */
  lemma UndecodableSkipped<P>(lines: seq<LogLine<P>>)
    ensures ResumeSet(lines + [Undecodable]) == ResumeSet(lines)
  {
    var skipped: LogLine<P> := Undecodable;
    ResumeIdsSnoc(lines, skipped);
    UnreadableSnoc(lines, skipped);
    assert ResumeIds(lines + [skipped]) == ResumeIds(lines);
  }

  /**
   * Appending result records to a readable log keeps it readable and adds
   * exactly their non-empty task ids to its resume set.
   */
  lemma {:induction false} ResumeAfterAppend<P>(lines: seq<LogLine<P>>, records: seq<ResultRecord<P>>)
    requires ResumeSet(lines).Some?
    ensures ResumeSet(lines + WrittenLines(records)) == Some(ResumeSet(lines).value + RecordedIds(records))
    decreases |records|
  {
    if records == [] {
      assert lines + WrittenLines(records) == lines;
      assert RecordedIds(records) == {};
      assert ResumeSet(lines).value + RecordedIds(records) == ResumeSet(lines).value;
    } else {
      var init, last := records[..|records| - 1], records[|records| - 1];
      ResumeAfterAppend(lines, init);
      assert lines + WrittenLines(records) == (lines + WrittenLines(init)) + [Written(last)];
      ResumeIdsSnoc(lines + WrittenLines(init), Written(last));
      UnreadableSnoc(lines + WrittenLines(init), Written(last));
      assert records == init + [last];
      assert RecordedIds(records) == RecordedIds(init) + (if last.task.taskId != "" then {last.task.taskId} else {});
      assert !Unreadable(lines + WrittenLines(records));
      var added := if last.task.taskId != "" then {last.task.taskId} else {};
      assert ResumeIds(lines + WrittenLines(records)) == ResumeIds(lines + WrittenLines(init)) + added;
      assert ResumeIds(lines + WrittenLines(init)) == ResumeSet(lines).value + RecordedIds(init);
      assert (ResumeSet(lines).value + RecordedIds(init)) + added == ResumeSet(lines).value + (RecordedIds(init) + added);
    }
  }

  /** An output log: the lines already in the file, to which result records are appended. */
  class OutputLog<P> {
    var lines: seq<LogLine<P>>

    constructor (existing: seq<LogLine<P>>)
      ensures lines == existing
    {
      lines := existing;
    }

    /** Writes one result record as a new last line. */
    method Append(record: ResultRecord<P>)
      modifies this
      ensures lines == old(lines) + [Written(record)]
    {
      lines := lines + [Written(record)];
    }
  }
}
