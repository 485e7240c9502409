/**
 * The records that flow through one run of the batch query executor: the task
 * records read from an input partition (one decoded JSON line each) and the
 * result records appended to that partition's output log.
 */
module Records {
  import opened Wrappers

  /**
   * A decoded input line. Only the four fields the executor reads are kept;
   * the line's other fields are copied into the result record, except a field
   * named `response`, which the response block replaces.
   * A missing `prompt` reads as the empty string.
   */
  datatype TaskRecord = TaskRecord(taskId: string, category: string, language: string, prompt: string)

  /** Wall-clock duration of a task: the -1 sentinel, or some measured value. */
  datatype Elapsed = Unmeasured | Measured

  /** The `response` block added to a completed task. */
  datatype Response<P> = Response(
    original: seq<string>,  // every raw oracle output, over all outer attempts
    parsed: Option<P>,      // the parser's result, or absent
    inputLen: int,          // unit counts of the turn that parsed, or -1
    outputLen: int,
    numIter: nat,           // the number of raw outputs
    time: Elapsed)

  /** The input record extended by its response block. */
  datatype ResultRecord<P> = ResultRecord(task: TaskRecord, response: Response<P>)

  /**
   * The task type classifier: the part of a task id before its first `_`
   * (the whole id when it has none).
   */
  function TaskType(id: string): (t: string)
    ensures t <= id
    ensures '_' !in t
    ensures t == id || id[|t|] == '_'
    decreases |id|
  {
    if id == [] || id[0] == '_' then [] else [id[0]] + TaskType(id[1..])
  }

  /** Everything before the first `_` and nothing more: the three facts above pin the prefix down. */
  lemma {:induction false} TaskTypeUnique(id: string, t: string)
    requires t <= id && '_' !in t && (t == id || id[|t|] == '_')
    ensures t == TaskType(id)
    decreases |id|
  {
    if id != [] && id[0] != '_' {
      assert t != [] && t[0] == id[0];
      TaskTypeUnique(id[1..], t[1..]);
    }
  }
}
