# CoRe batch query executor, in Dafny

This project models the batch query executor of the CoRe benchmark, together with its
scan-result lookup. The executor sends benchmark prompts to a language-model oracle and
appends one result record per task to an output log. It does this:

- per input partition (one `.jsonl` file of tasks);
- resumably, because it skips task ids already in the partition's output log;
- under two nested retry bounds:
  - at most `MAX_ITER` = 3 conversational turns per attempt, each rejected output followed
    by a fixed corrective prompt;
  - at most `TIMEOUT_ITER` = 100 attempts when the oracle raises.

If every attempt of a task raises, the rest of the partition is abandoned.

## Modules

- `Records`: the input task record, the result record with its `response` block, and the
  task-type classifier (the id up to its first `_`).
- `Query`: the two nested retry loops.
  - `RunQuery` is the imperative loop.
  - It is proved equal to the recursive specification `QueryTask` (`Turns` inside
    `Attempts`).
  - The lemmas state the invariant between oracle calls (`Coherent`) and the bounds.
  - The oracle is a total function from the call number and the conversation to a reply,
    or a raised error: an arbitrary, infinite script.
  - The result parser is a function parameter too.
- `Checkpoint`: the output log as a sequence of lines, the resume scan over it
  (`ComputeResumeSet`, proved against `ResumeSet`), and the append-only log object
  (`OutputLog`).
- `Dispatch`: the filters of one run and the loop over the input lines.
  - `RunInference` and its helpers are proved against the run specification
    `Run`/`RunFrom`.
  - The lemmas relate whole runs: order, skip rules, faithful response blocks, idempotent
    resumption, duplicates, and halting.
- `Partitions`: the output-log name of a partition and the `.jsonl` selection of a
  directory run.
  - `os.path.basename`, `splitext` and two-argument `join` are written out for POSIX
    paths.
- `Cli`: the command-line validation, in the order the executor checks it, proved
  equivalent to a declarative `WellFormed`.
- `ScanResults`: `Get` and the first-match search `FindFunScanResults` over the scan
  data.
  - The data is an ordered sequence of (id, entry) pairs.
  - The file-name parser is a function parameter.

## Outer retries keep the conversation

The conversation and the list of raw outputs are created once per task
(scripts/run.py:102-103), and the outer attempts keep extending them. So a task's
`original` list collects outputs across all attempts, and `num_iter` can exceed `MAX_ITER`.
It is bounded by `(TIMEOUT_ITER - 1) * (MAX_ITER - 1) + MAX_ITER`, which is at most
`MAX_ITER * TIMEOUT_ITER`.

## Model

| member | source | states |
|---|---|---|
| Records.TaskType | scripts/run.py:89 | The task type is a prefix of the id without `_`, and either the whole id or followed by `_` in it. |
| Records.TaskTypeUnique | scripts/run.py:89 | Any prefix with those three properties is the task type: it is the part before the first `_`. |
| Query.RunAttempt | scripts/run.py:110-127 | The inner loop returns exactly `Turns` from the given state with MAX_ITER turns. A raise ends it at once, a parse completes it with that turn's counts, and a rejection appends the output and the retry prompt. |
| Query.RunQuery | scripts/run.py:102-137 | The outer loop, with the task's variables created once and carried across attempts, returns exactly `QueryTask`: completed at the first attempt that does not raise, raised after TIMEOUT_ITER raising attempts. |
| Query.Conversation | scripts/run.py:102-123 | The conversation after n rejected outputs has 1 + 2n turns and starts with the user prompt. |
| Query.ConversationShape | scripts/run.py:122-123 | Turn 2i+1 is the assistant turn holding the i-th rejected output. Turn 2i+2 is the user turn holding RETRY_PROMPT. |
| Query.RejectingCoherent | scripts/run.py:113-123 | A turn whose output the parser rejects keeps the invariant. It appends the output and exactly two turns, assistant and then retry prompt. |
| Query.AcceptingCoherent | scripts/run.py:113-120 | A turn whose output parses keeps the invariant. The unit counts and the parsed value come from that call, made with the current conversation. |
| Query.TurnsCoherent | scripts/run.py:112-127 | One outer attempt preserves the invariant. An attempt that raises leaves nothing parsed. |
| Query.TurnsBounds | scripts/run.py:112-123 | An attempt makes at most MAX_ITER calls, one output per successful call and none for the one that raised. It only extends the conversation and outputs, and exhausted turns leave exactly MAX_ITER outputs. |
| Query.AttemptsCoherent | scripts/run.py:109-127 | A successful sequence of attempts leaves the task's variables coherent, even after attempts that raised. |
| Query.AttemptsBounds | scripts/run.py:109-127 | A successful sequence of attempts leaves a measured time and at least one new output. Outputs grow by at most (left-1)(MAX_ITER-1)+MAX_ITER and calls by at most left·MAX_ITER, because the conversation is not reset. |
| Query.QueryTaskCompleted | scripts/run.py:102-147 | A completed task is coherent and measured, with 1 ≤ num_iter ≤ MAX_ITER·TIMEOUT_ITER, and made at most MAX_ITER·TIMEOUT_ITER oracle calls. |
| Query.TurnsNeverRaise | scripts/run.py:112-127 | With an oracle that never raises, an attempt completes after at most `left` calls, one output per call. |
| Query.NeverRaisingCompletes | scripts/run.py:109-127 | With an oracle that never raises, a task completes in its first attempt with at most MAX_ITER outputs. |
| Query.ExhaustedTurnsComplete | scripts/run.py:104-127 | When every output is rejected the task still completes: MAX_ITER outputs, nothing parsed, counts -1, 1 + 2·MAX_ITER turns. |
| Query.AlwaysRaisingFails | scripts/run.py:109-137 | With an oracle that always raises, every attempt raises and the task fails. |
| Query.FirstTurnParses | scripts/run.py:112-127 | An output accepted on the first call ends the task at once: that single output, its counts, no retry turn, one call. |
| Checkpoint.ResumeIdsSnoc | scripts/run.py:72-77 | Scanning one more log line adds exactly its non-empty `task_id`, if it has one. |
| Checkpoint.UnreadableSnoc | scripts/run.py:73-79 | The scan becomes unreadable exactly at a line that is JSON but not an object, or whose `task_id` is a non-empty list or object. |
| Checkpoint.ComputeResumeSet | scripts/run.py:69-79 | The scan returns the set of truthy `task_id`s of the decodable lines, or fails when a line is JSON but not an object or has a non-empty list or object as its `task_id`. |
| Checkpoint.UndecodableSkipped | scripts/run.py:73-79 | A line that is not JSON leaves the resume set unchanged, and the scan goes on. |
| Checkpoint.ResumeAfterAppend | scripts/run.py:69-149 | Appending result records keeps the log readable and adds exactly their non-empty ids to its resume set. |
| Checkpoint.OutputLog.constructor | scripts/run.py:81 | The log opened for appending holds the lines already in the file. |
| Checkpoint.OutputLog.Append | scripts/run.py:148-149 | Appending writes the record as a new last line and changes nothing else. |
| Dispatch.Screen | scripts/run.py:83-100 | A line is queried iff it decodes and passes the source filter, the trace filter, the resume set, the lite table and the non-empty prompt. It crashes only when undecodable or when a lite lookup key is missing. |
| Dispatch.HandleLine | scripts/run.py:83-149 | Handling a line matches `Step`. The log gains exactly the completed task's record, and nothing for a skip, crash or halt. |
| Dispatch.DispatchLines | scripts/run.py:81-149 | The loop appends exactly the specified records, in order, and ends as specified. |
| Dispatch.RunInference | scripts/run.py:68-149 | The resume scan and then the loop: the log gains exactly `Run`'s records, and the run ends as `Run` says. |
| Dispatch.RunFromStops | scripts/run.py:82-149 | A run never ends with an unreadable log once the scan succeeded. A halt happens at a queried line, a crash at a line whose handling raises. |
| Dispatch.NoCrashBeforeStop | scripts/run.py:82-100 | No line before the stopping line raised while being handled. |
| Dispatch.RunFromShape | scripts/run.py:82-149 | The appended tasks are exactly the admitted input lines before the stopping line, in input order. |
| Dispatch.CompletedResponseFaithful | scripts/run.py:139-147 | A completed task's response block has `num_iter` = number of outputs, between 1 and MAX_ITER·TIMEOUT_ITER, and a measured time. Every output but the last was rejected, `parsed` is the parse of the last, and the counts are -1 when nothing parsed. |
| Dispatch.AppendedRecordsFaithful | scripts/run.py:84-149 | Every appended record passed all filters, so its id is outside the startup resume set, and it carries a faithful response block. |
| Dispatch.NothingAdmittedNoCalls | scripts/run.py:84-100 | When every remaining line is skipped, the run appends nothing, makes no oracle call and finishes. |
| Dispatch.SecondRunNoOp | scripts/run.py:69-149 | After a finished run over lines with non-empty ids, rerunning over the extended log appends nothing and calls nothing, whatever the oracle. |
| Dispatch.DuplicateAppendedTwice | scripts/run.py:69-149 | The resume set is not extended during a run: a task occurring twice in a partition is queried and appended twice. |
| Dispatch.AlwaysRaisingAppendsNothing | scripts/run.py:109-137 | With an oracle that always raises, a run appends nothing, and it finishes only when no line was to be queried. |
| Partitions.Basename | scripts/run.py:64 | The basename has no `/` and is the suffix of the path after its last `/`. |
| Partitions.Stem | scripts/run.py:64 | The `splitext` root is a prefix of the name. It is either the whole name, or the name cut at its last dot, with at least one character that is not a dot. The whole name comes back only when no dot has a non-dot before it and no dot after it. |
| Partitions.Join | scripts/run.py:66 | An absolute second part replaces the first. Otherwise the joined path starts with the directory, ends with the second part, and is at most one character longer than both together; that character is a `/` right after the directory, added exactly when the directory is non-empty and does not end in `/`. |
| Partitions.OutputName | scripts/run.py:63-65 | The output-log name has no `/` and ends in `_response.jsonl`. |
| Partitions.OutputPath | scripts/run.py:63-66 | The output log's path starts with the response folder, is as long as the folder and the output-log name together or one separator longer, and has the output-log name as its basename. |
| Partitions.SelectPartitions | scripts/run.py:168-170 | The selected paths are exactly the listed names ending in `.jsonl`, joined to the directory. |
| Partitions.BasenameOfJoin | scripts/run.py:170 | Joining a directory and a listed name and taking the basename gives back the name. |
| Partitions.PartitionLogName | scripts/run.py:63-66 | Partition `<s>.jsonl` is answered in `<s>_response.jsonl` when `s` is not all dots. |
| Partitions.DistinctPartitionsDistinctLogs | scripts/run.py:63-66 | Two different partitions of a directory, neither named only dots before `.jsonl`, write to different logs. |
| Partitions.DotOnlyStemKeepsExtension | scripts/run.py:63-65 | A partition named only dots before `.jsonl` keeps the extension: `<s>.jsonl_response.jsonl`. |
| Partitions.DotOnlyStemsShareLog | scripts/run.py:63-66 | Hence `.jsonl` and `.jsonl.jsonl` share one output log. |
| Cli.Validate | scripts/run.py:259-297 | Validation accepts iff the path is a regular file with no category flag, or a directory with exactly one flag (`--source` only with a non-empty `--lite`), and the model is known. A file runs in single-file mode, a directory in folder mode, and both flags are always rejected. |
| Cli.AcceptedCategories | scripts/run.py:273-293 | An accepted directory run has exactly one of `--trace` and `--source`. An accepted file run has neither. `--source` implies `--lite`. |
| Cli.RejectionReasons | scripts/run.py:273-297 | `--trace` on a file, `--source` without a directory or lite, and an unknown model with otherwise valid flags are each reported exactly when their check is the first to fail. |
| ScanResults.Get | scripts/ScanResults.py:29-30 | The result is absent iff no entry has the id. A present result is stored under the id. |
| ScanResults.GetStored | scripts/ScanResults.py:29-30 | With distinct ids, `Get` returns the entry stored under a present id. |
| ScanResults.Examine | scripts/ScanResults.py:66-111 | The chain of skips matches iff the entry has a path, a function name and a non-zero start line. Its path must parse, and problem, solution, function, start line and end line must all agree with the label. |
| ScanResults.Search | scripts/ScanResults.py:64-117 | The result is absent iff no entry matches. Otherwise it is the id of the first matching entry in iteration order. |
| ScanResults.FindFunScanResults | scripts/ScanResults.py:32-117 | The result is absent when the label path does not parse. Otherwise it is the first matching entry's id, or absent iff none matches. The scan data is a value, so it is never modified. |
| ScanResults.FoundEntryMatches | scripts/ScanResults.py:29-113 | A returned id is a key, and the entry `Get` gives for it matches the label on all five fields. |

## Left out

- File I/O is left out: opening and reading files, `os.makedirs`, the existence checks, and
  building the response folder path (scripts/run.py:300-302).
  - An input partition is a sequence of decoded lines.
  - An output log is a sequence of decoded log lines.
- JSON encoding and decoding are left out.
  - An input line is `Option<TaskRecord>`, where `None` is a line that does not decode and
    so crashes the run.
  - A log line is undecodable, a non-object, an object whose `task_id` is a non-empty list
    or object, an object with an optional string `task_id`, or a record this executor wrote.
- Malformed input records are not modelled: the model's task records always carry their
  fields as strings. In the executor:
  - a missing `category` raises only under `--source` or `--trace`, the only runs that read
    it (scripts/run.py:84-87);
  - a record that passes that filter and is missing `language` or `task_id`, or whose
    `task_id` is not a string, raises (scripts/run.py:88-90);
  - a record the filter drops is not read further, so its other fields never raise.
- The input record's other fields are not modelled. They are copied into the result record,
  except that a field named `response` is overwritten by the response block
  (scripts/run.py:139-140).
- Reading the lite file is left out. The lite table is given as a map from task type to
  language to admitted ids.
- The multiprocessing pool and the unordered completion of a directory run are left out,
  because they are concurrency (scripts/run.py:184-191).
  - The model covers one run per partition.
  - It also covers the name-level independence of partitions.
- How an exception escaping one worker affects the others is not modelled.
  - Within a run, such an exception is the `Crashed` or `LogUnreadable` end.
- The model-language adapter and the values of the model table are foreign calls.
  - The oracle is a function parameter.
  - Only membership of the model name is kept.
  - `max_tokens` and `temperature` are passed to the adapter only, so they are left out.
- `parse_dependence_output` and `parse_filename` are defined outside this model and appear
  as function parameters.
- An exception raised by the result parser is not modelled.
  - The executor catches it like an oracle error.
  - The modelled parser is total, so only the oracle raises.
- Wall-clock time (`time.time`, `time.sleep`, the float duration) is left out. A duration is
  either the -1 sentinel or "measured".
- `print`, `traceback`, `tqdm`, and argparse's parsing of the command line are left out.
  Validation starts from the parsed arguments and the kind of the prompt path.
- `ScanResults.__init__` and `read_json` are left out. The scan data is given as a value.
  - Entry fields of other JSON types (a start line written as a string, say) are not
    modelled.
  - Python's equality of `True` and `1` is not modelled.
  - A dictionary has distinct keys. The lemmas that need it assume `DistinctIds`.
- Checkpoint.OutputLog.Append: assumes the log ends in a newline. The executor opens the
  log for appending and writes the record and then a newline (scripts/run.py:81,
  148-149). If an interrupted run left an unterminated last line, the next record is glued
  onto it, and the combined line does not decode. The model does not capture this: an
  append always adds a new line.
- Checkpoint.ResumeAfterAppend: holds only for a log that ends in a newline. After an
  unterminated fragment, the first appended record's id is lost with the glued line.
- Dispatch.SecondRunNoOp: holds only for a log that ends in a newline. After an
  unterminated fragment, the rerun queries and appends the glued task again.
- Checkpoint.ComputeResumeSet: a log object whose `task_id` is a number or `true` is
  represented as an object without an id. The executor adds such an id to the resume set,
  but it never equals a string task id, so no task is skipped for it.
- ScanResults.FindFunScanResults: assumes every scan entry is a JSON object. An entry of
  another type makes its `.get` raise (scripts/ScanResults.py:66), which the model does
  not capture.
- ScanResults.Get: assumes every scan entry is a JSON object. A `null` entry stored under
  the id would come back as `None`, like a missing id (scripts/ScanResults.py:30).
- Dispatch.Screen: the crash case is stated in one direction only. A crash comes from an
  undecodable line or a missing lite key, and the exact condition is the body's order of
  checks.
