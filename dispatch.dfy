/**
 * The batch dispatcher: one run over one input partition. It computes the
 * resume set from the partition's output log, walks the input lines in order,
 * skips the lines its filters exclude, queries the oracle for the rest and
 * appends one result record per completed task; a task whose every outer
 * attempt raised halts the rest of the partition.
 */
module Dispatch {
  import opened Wrappers
  import opened Records
  import opened Query
  import opened Checkpoint

  /** The lite allow-list: the admitted task ids, by task type and then by language. */
  type LiteTable = map<string, map<string, seq<string>>>

  /** The run's filters: trace-only, source-only, and the lite allow-list when one is given. */
  datatype Config = Config(trace: bool, source: bool, lite: Option<LiteTable>)

  /** What the dispatcher does with one input line (`None` is a line that does not decode). */
  datatype Decision = Skip | Crash | Process(taskType: string)

  /** How a run ends. */
  datatype RunEnd =
    | Finished        // every input line was handled
    | Halted(at: nat) // every outer attempt of the task on this line raised
    | Crashed(at: nat) // an exception escaped while handling this line
    | LogUnreadable   // an exception escaped while reading the output log

  /** The records a run appended, how it ended, and the number of oracle calls it made. */
  datatype RunResult<P> = RunResult(appended: seq<ResultRecord<P>>, end: RunEnd, calls: nat)

  /** The lite table lists the task under its task type and language. */
  ghost predicate Listed(table: LiteTable, t: TaskRecord) {
    var tt := TaskType(t.taskId);
    tt in table && t.language in table[tt] && t.taskId in table[tt][t.language]
  }

  /** A task the run must query: it passes both category filters, is not yet done, is listed, and has a prompt. */
  ghost predicate Admitted(t: TaskRecord, cfg: Config, resume: set<string>) {
    && (cfg.source ==> t.category == "source")
    && (cfg.trace ==> t.category == "trace")
    && t.taskId !in resume
    && (cfg.lite.Some? ==> Listed(cfg.lite.value, t))
    && t.prompt != ""
  }

  /**
   * The filters, in the order the executor applies them. Looking up the task
   * type or the language in the lite table raises when either is missing.
   */
  function Screen(line: Option<TaskRecord>, cfg: Config, resume: set<string>): (d: Decision)
    ensures d.Process? <==> line.Some? && Admitted(line.value, cfg, resume)
    ensures d.Process? ==> d.taskType == TaskType(line.value.taskId)
    ensures d.Crash? ==> line.None? || (cfg.lite.Some? && !Listed(cfg.lite.value, line.value))
  {
    match line
    case None => Crash
    case Some(t) =>
      var taskType := TaskType(t.taskId);
      if cfg.source && t.category != "source" then Skip
      else if cfg.trace && t.category != "trace" then Skip
      else if t.taskId in resume then Skip
      else if cfg.lite.Some? && (taskType !in cfg.lite.value || t.language !in cfg.lite.value[taskType]) then Crash
      else if cfg.lite.Some? && t.taskId !in cfg.lite.value[taskType][t.language] then Skip
      else if t.prompt == "" then Skip
      else Process(taskType)
  }

  /** The response block built from a completed task's variables. */
  function ResponseOf<P>(a: Attempt<P>): Response<P> {
    Response(a.responses, a.parsed, a.inLen, a.outLen, |a.responses|, a.time)
  }

  /** What handling one input line yields: the record it appended, if any, or the end of the run. */
  datatype Handled<P> = Next(record: Option<ResultRecord<P>>, calls: nat) | Stop(end: RunEnd, calls: nat)

  /** Handling input line `i` when `calls` oracle calls were made before it. */
  function Step<P>(oracle: (nat, seq<Message>) -> Reply, parse: (string, string, bool) -> Option<P>,
                   line: Option<TaskRecord>, cfg: Config, resume: set<string>, i: nat, calls: nat): Handled<P>
  {
    match Screen(line, cfg, resume)
    case Skip => Next(None, calls)
    case Crash => Stop(Crashed(i), calls)
    case Process(taskType) =>
      match QueryTask(oracle, parse, line.value.prompt, taskType, cfg.trace, calls)
      case Raised(failed) => Stop(Halted(i), failed.calls)
      case Completed(done) => Next(Some(ResultRecord(line.value, ResponseOf(done))), done.calls)
  }

  function OptionToSeq<T>(o: Option<T>): seq<T> {
    if o.Some? then [o.value] else []
  }

  /** The run from input line `i` on, with `calls` oracle calls made so far. */
  function RunFrom<P>(oracle: (nat, seq<Message>) -> Reply, parse: (string, string, bool) -> Option<P>,
                      lines: seq<Option<TaskRecord>>, cfg: Config, resume: set<string>, i: nat, calls: nat): RunResult<P>
    requires i <= |lines|
    decreases |lines| - i
  {
    if i == |lines| then RunResult([], Finished, calls)
    else
      match Step(oracle, parse, lines[i], cfg, resume, i, calls)
      case Stop(end, calls') => RunResult([], end, calls')
      case Next(record, calls') =>
        Prefixed(OptionToSeq(record), RunFrom(oracle, parse, lines, cfg, resume, i + 1, calls'))
  }

  lemma PrefixedTwice<P>(a: seq<ResultRecord<P>>, b: seq<ResultRecord<P>>, rest: RunResult<P>)
    ensures Prefixed(a, Prefixed(b, rest)) == Prefixed(a + b, rest)
  {
    assert a + (b + rest.appended) == (a + b) + rest.appended;
  }

  lemma RunFromNext<P>(oracle: (nat, seq<Message>) -> Reply, parse: (string, string, bool) -> Option<P>,
                       lines: seq<Option<TaskRecord>>, cfg: Config, resume: set<string>, i: nat, calls: nat)
    requires i < |lines| && Step(oracle, parse, lines[i], cfg, resume, i, calls).Next?
    ensures var h := Step(oracle, parse, lines[i], cfg, resume, i, calls);
      RunFrom(oracle, parse, lines, cfg, resume, i, calls)
        == Prefixed(OptionToSeq(h.record), RunFrom(oracle, parse, lines, cfg, resume, i + 1, h.calls))
  {
  }

  lemma RunFromStop<P>(oracle: (nat, seq<Message>) -> Reply, parse: (string, string, bool) -> Option<P>,
                       lines: seq<Option<TaskRecord>>, cfg: Config, resume: set<string>, i: nat, calls: nat)
    requires i < |lines| && Step(oracle, parse, lines[i], cfg, resume, i, calls).Stop?
    ensures var h := Step(oracle, parse, lines[i], cfg, resume, i, calls);
      RunFrom(oracle, parse, lines, cfg, resume, i, calls) == RunResult([], h.end, h.calls)
  {
  }

  /** A run's result after `appended` was already appended. */
  function Prefixed<P>(appended: seq<ResultRecord<P>>, rest: RunResult<P>): RunResult<P> {
    RunResult(appended + rest.appended, rest.end, rest.calls)
  }

  /** A whole run over a partition whose output log holds `log`. */
  ghost function Run<P>(oracle: (nat, seq<Message>) -> Reply, parse: (string, string, bool) -> Option<P>,
                        log: seq<LogLine<P>>, lines: seq<Option<TaskRecord>>, cfg: Config): RunResult<P>
  {
    match ResumeSet(log)
    case None => RunResult([], LogUnreadable, 0)
    case Some(resume) => RunFrom(oracle, parse, lines, cfg, resume, 0, 0)
  }

  /** Handles one input line: skips it, or queries the oracle and appends the record, or ends the run. */
  method HandleLine<P>(log: OutputLog<P>, line: Option<TaskRecord>, cfg: Config, resume: set<string>, i: nat, calls: nat,
                       oracle: (nat, seq<Message>) -> Reply, parse: (string, string, bool) -> Option<P>)
    returns (handled: Handled<P>)
    modifies log
    ensures handled == Step(oracle, parse, line, cfg, resume, i, calls)
    ensures handled.Next? && handled.record.Some? ==> log.lines == old(log.lines) + [Written(handled.record.value)]
    ensures handled.Stop? || handled.record.None? ==> log.lines == old(log.lines)
  {
    var decision := Screen(line, cfg, resume);
    if decision.Crash? {
      return Stop(Crashed(i), calls);
    }
    if decision.Skip? {
      return Next(None, calls);
    }
    var outcome := RunQuery(oracle, parse, line.value.prompt, decision.taskType, cfg.trace, calls);
    if outcome.Raised? {
      return Stop(Halted(i), outcome.state.calls);
    }
    var record := ResultRecord(line.value, ResponseOf(outcome.state));
    log.Append(record);
    handled := Next(Some(record), outcome.state.calls);
  }

  /** After a line that lets the run go on, the records so far are extended by the line's record. */
  lemma AdvanceNext<P>(oracle: (nat, seq<Message>) -> Reply, parse: (string, string, bool) -> Option<P>,
                       lines: seq<Option<TaskRecord>>, cfg: Config, resume: set<string>,
                       total: RunResult<P>, appended: seq<ResultRecord<P>>, i: nat, calls: nat)
    requires i < |lines| && Step(oracle, parse, lines[i], cfg, resume, i, calls).Next?
    requires total == Prefixed(appended, RunFrom(oracle, parse, lines, cfg, resume, i, calls))
    ensures var h := Step(oracle, parse, lines[i], cfg, resume, i, calls);
      total == Prefixed(appended + OptionToSeq(h.record), RunFrom(oracle, parse, lines, cfg, resume, i + 1, h.calls))
  {
    var h := Step(oracle, parse, lines[i], cfg, resume, i, calls);
    RunFromNext(oracle, parse, lines, cfg, resume, i, calls);
    PrefixedTwice(appended, OptionToSeq(h.record), RunFrom(oracle, parse, lines, cfg, resume, i + 1, h.calls));
  }

  /** A line that ends the run leaves exactly the records so far and the line's end. */
  lemma AdvanceStop<P>(oracle: (nat, seq<Message>) -> Reply, parse: (string, string, bool) -> Option<P>,
                       lines: seq<Option<TaskRecord>>, cfg: Config, resume: set<string>,
                       total: RunResult<P>, appended: seq<ResultRecord<P>>, i: nat, calls: nat)
    requires i < |lines| && Step(oracle, parse, lines[i], cfg, resume, i, calls).Stop?
    requires total == Prefixed(appended, RunFrom(oracle, parse, lines, cfg, resume, i, calls))
    ensures total.appended == appended && total.end == Step(oracle, parse, lines[i], cfg, resume, i, calls).end
  {
    RunFromStop(oracle, parse, lines, cfg, resume, i, calls);
    assert appended + [] == appended;
  }

  /** The loop over the input lines, once the resume set is known. */
  method DispatchLines<P>(log: OutputLog<P>, lines: seq<Option<TaskRecord>>, cfg: Config, resume: set<string>,
                          oracle: (nat, seq<Message>) -> Reply, parse: (string, string, bool) -> Option<P>)
    returns (end: RunEnd)
    modifies log
    ensures log.lines == old(log.lines) + WrittenLines(RunFrom(oracle, parse, lines, cfg, resume, 0, 0).appended)
    ensures end == RunFrom(oracle, parse, lines, cfg, resume, 0, 0).end
  {
    ghost var total := RunFrom(oracle, parse, lines, cfg, resume, 0, 0);
    ghost var appended: seq<ResultRecord<P>> := [];
    assert total == Prefixed(appended, total);
    var calls := 0;
    var i := 0;
    while i < |lines|
      invariant i <= |lines|
      invariant log.lines == old(log.lines) + WrittenLines(appended)
      invariant total == Prefixed(appended, RunFrom(oracle, parse, lines, cfg, resume, i, calls))
    {
      var handled := HandleLine(log, lines[i], cfg, resume, i, calls, oracle, parse);
      if handled.Stop? {
        AdvanceStop(oracle, parse, lines, cfg, resume, total, appended, i, calls);
        return handled.end;
      }
      AdvanceNext(oracle, parse, lines, cfg, resume, total, appended, i, calls);
      if handled.record.Some? {
        WrittenLinesSnoc(appended, handled.record.value);
      } else {
        assert appended + [] == appended;
      }
      appended := appended + OptionToSeq(handled.record);
      calls := handled.calls;
      i := i + 1;
    }
    assert appended + [] == appended;
    end := Finished;
  }

  /**
   * One run over a partition: the resume scan, then the input lines in order,
   * each skipped, queried and appended, or ending the run.
   */
  method RunInference<P>(log: OutputLog<P>, lines: seq<Option<TaskRecord>>, cfg: Config,
                         oracle: (nat, seq<Message>) -> Reply, parse: (string, string, bool) -> Option<P>)
    returns (end: RunEnd)
    modifies log
    ensures log.lines == old(log.lines) + WrittenLines(Run(oracle, parse, old(log.lines), lines, cfg).appended)
    ensures end == Run(oracle, parse, old(log.lines), lines, cfg).end
  {
    var resume := ComputeResumeSet(log.lines);
    if resume.None? {
      assert log.lines == old(log.lines) + WrittenLines<P>([]);
      return LogUnreadable;
    }
    end := DispatchLines(log, lines, cfg, resume.value, oracle, parse);
  }

  /** The task records of the given result records, in order. */
  function Tasks<P>(records: seq<ResultRecord<P>>): (ts: seq<TaskRecord>)
    ensures |ts| == |records|
    decreases |records|
  {
    if records == [] then [] else [records[0].task] + Tasks(records[1..])
  }

  /** The input lines' task records the filters admit, in input order. */
  ghost function AdmittedTasks(lines: seq<Option<TaskRecord>>, cfg: Config, resume: set<string>): seq<TaskRecord>
    decreases |lines|
  {
    if lines == [] then []
    else (if Screen(lines[0], cfg, resume).Process? then [lines[0].value] else []) + AdmittedTasks(lines[1..], cfg, resume)
  }

  /** The index of the line a run stopped at, or the number of lines when it finished. */
  function StopOf(end: RunEnd, n: nat): nat {
    match end
    case Halted(k) => k
    case Crashed(k) => k
    case _ => n
  }

  /**
   * Where a run from line `i` stops: it halts only at a line it queried and
   * crashes only at a line whose handling raises.
   */
  lemma {:induction false} RunFromStops<P>(oracle: (nat, seq<Message>) -> Reply, parse: (string, string, bool) -> Option<P>,
                                           lines: seq<Option<TaskRecord>>, cfg: Config, resume: set<string>, i: nat, calls: nat)
    requires i <= |lines|
    ensures var rr := RunFrom(oracle, parse, lines, cfg, resume, i, calls);
      var stop := StopOf(rr.end, |lines|);
      && i <= stop <= |lines|
      && !rr.end.LogUnreadable?
      && (rr.end.Halted? ==> stop < |lines| && Screen(lines[stop], cfg, resume).Process?)
      && (rr.end.Crashed? ==> stop < |lines| && Screen(lines[stop], cfg, resume).Crash?)
    decreases |lines| - i
  {
    if i < |lines| {
      var h := Step(oracle, parse, lines[i], cfg, resume, i, calls);
      if h.Stop? {
        RunFromStop(oracle, parse, lines, cfg, resume, i, calls);
      } else {
        RunFromNext(oracle, parse, lines, cfg, resume, i, calls);
        RunFromStops(oracle, parse, lines, cfg, resume, i + 1, h.calls);
        assert RunFrom(oracle, parse, lines, cfg, resume, i, calls).end
            == RunFrom(oracle, parse, lines, cfg, resume, i + 1, h.calls).end;
      }
    }
  }

  /** No line before the one a run stopped at raised. */
  lemma {:induction false} NoCrashBeforeStop<P>(oracle: (nat, seq<Message>) -> Reply, parse: (string, string, bool) -> Option<P>,
                                                lines: seq<Option<TaskRecord>>, cfg: Config, resume: set<string>, i: nat, calls: nat)
    requires i <= |lines|
    ensures var stop := StopOf(RunFrom(oracle, parse, lines, cfg, resume, i, calls).end, |lines|);
      forall j :: i <= j < stop && j < |lines| ==> !Screen(lines[j], cfg, resume).Crash?
    decreases |lines| - i
  {
    if i < |lines| {
      var h := Step(oracle, parse, lines[i], cfg, resume, i, calls);
      if h.Stop? {
        RunFromStop(oracle, parse, lines, cfg, resume, i, calls);
      } else {
        assert !Screen(lines[i], cfg, resume).Crash?;
        RunFromNext(oracle, parse, lines, cfg, resume, i, calls);
        NoCrashBeforeStop(oracle, parse, lines, cfg, resume, i + 1, h.calls);
        assert RunFrom(oracle, parse, lines, cfg, resume, i, calls).end
            == RunFrom(oracle, parse, lines, cfg, resume, i + 1, h.calls).end;
      }
    }
  }

  lemma AdmittedTasksFrom(lines: seq<Option<TaskRecord>>, cfg: Config, resume: set<string>, i: nat, stop: nat)
    requires i < stop <= |lines|
    ensures AdmittedTasks(lines[i..stop], cfg, resume)
         == (if Screen(lines[i], cfg, resume).Process? then [lines[i].value] else [])
            + AdmittedTasks(lines[i + 1..stop], cfg, resume)
  {
    assert lines[i..stop][0] == lines[i] && lines[i..stop][1..] == lines[i + 1..stop];
  }

  lemma TasksCons<P>(r: ResultRecord<P>, rest: seq<ResultRecord<P>>)
    ensures Tasks([r] + rest) == [r.task] + Tasks(rest)
  {
    assert ([r] + rest)[1..] == rest;
  }

  /**
   * Order preservation and the skip rules: a run from line `i` appends
   * exactly the admitted task records of the lines before the one it stopped
   * at, in input order.
   */
  lemma {:induction false} RunFromShape<P>(oracle: (nat, seq<Message>) -> Reply, parse: (string, string, bool) -> Option<P>,
                                           lines: seq<Option<TaskRecord>>, cfg: Config, resume: set<string>, i: nat, calls: nat)
    requires i <= |lines|
    ensures var rr := RunFrom(oracle, parse, lines, cfg, resume, i, calls);
      var stop := StopOf(rr.end, |lines|);
      i <= stop <= |lines| && Tasks(rr.appended) == AdmittedTasks(lines[i..stop], cfg, resume)
    decreases |lines| - i
  {
    RunFromStops(oracle, parse, lines, cfg, resume, i, calls);
    if i == |lines| {
      assert lines[i..i] == [];
    } else {
      var h := Step(oracle, parse, lines[i], cfg, resume, i, calls);
      if h.Stop? {
        RunFromStop(oracle, parse, lines, cfg, resume, i, calls);
        assert lines[i..i] == [];
      } else {
        RunFromNext(oracle, parse, lines, cfg, resume, i, calls);
        RunFromShape(oracle, parse, lines, cfg, resume, i + 1, h.calls);
        var rr := RunFrom(oracle, parse, lines, cfg, resume, i, calls);
        var rest := RunFrom(oracle, parse, lines, cfg, resume, i + 1, h.calls);
        assert rr.end == rest.end;
        AdmittedTasksFrom(lines, cfg, resume, i, StopOf(rest.end, |lines|));
        if h.record.Some? {
          assert rr.appended == [h.record.value] + rest.appended;
          TasksCons(h.record.value, rest.appended);
        } else {
          assert rr.appended == rest.appended;
        }
      }
    }
  }

  /** The response block of a result record agrees with the retry policy and the parser. */
  ghost predicate FaithfulResponse<P>(parse: (string, string, bool) -> Option<P>, trace: bool, r: ResultRecord<P>) {
    var resp := r.response;
    var taskType := TaskType(r.task.taskId);
    && resp.numIter == |resp.original|
    && 1 <= resp.numIter <= MAX_ITER * TIMEOUT_ITER
    && resp.time == Measured
    && (forall k :: 0 <= k < |resp.original| - 1 ==> parse(resp.original[k], taskType, trace).None?)
    && (resp.parsed.None? ==>
          resp.inputLen == -1 && resp.outputLen == -1 && parse(Last(resp.original), taskType, trace).None?)
    && (resp.parsed.Some? ==> parse(Last(resp.original), taskType, trace) == resp.parsed)
  }

  lemma CompletedResponseFaithful<P>(oracle: (nat, seq<Message>) -> Reply, parse: (string, string, bool) -> Option<P>,
                                     task: TaskRecord, cfg: Config, calls: nat)
    requires QueryTask(oracle, parse, task.prompt, TaskType(task.taskId), cfg.trace, calls).Completed?
    ensures var done := QueryTask(oracle, parse, task.prompt, TaskType(task.taskId), cfg.trace, calls).state;
      FaithfulResponse(parse, cfg.trace, ResultRecord(task, ResponseOf(done)))
  {
    var taskType := TaskType(task.taskId);
    QueryTaskCompleted(oracle, parse, task.prompt, taskType, cfg.trace, calls);
    var done := QueryTask(oracle, parse, task.prompt, taskType, cfg.trace, calls).state;
    var n := |done.responses|;
    if done.parsed.Some? {
      assert Rejected(done) == done.responses[..n - 1];
      forall k | 0 <= k < n - 1 ensures parse(done.responses[k], taskType, cfg.trace).None? {
        assert done.responses[k] == Rejected(done)[k];
      }
    } else {
      assert Rejected(done) == done.responses;
      assert parse(Rejected(done)[n - 1], taskType, cfg.trace).None?;
    }
  }

  /**
   * Every record a run appends is admitted by the filters (so it passes the
   * category filter, its id was not in the resume set, it is listed and its
   * prompt is not empty) and carries a faithful response block.
   */
  lemma {:induction false} AppendedRecordsFaithful<P>(oracle: (nat, seq<Message>) -> Reply, parse: (string, string, bool) -> Option<P>,
                                                      lines: seq<Option<TaskRecord>>, cfg: Config, resume: set<string>, i: nat, calls: nat)
    requires i <= |lines|
    ensures forall r :: r in RunFrom(oracle, parse, lines, cfg, resume, i, calls).appended ==>
              Admitted(r.task, cfg, resume) && FaithfulResponse(parse, cfg.trace, r)
    decreases |lines| - i
  {
    if i < |lines| {
      var h := Step(oracle, parse, lines[i], cfg, resume, i, calls);
      if h.Next? {
        AppendedRecordsFaithful(oracle, parse, lines, cfg, resume, i + 1, h.calls);
        if h.record.Some? {
          CompletedResponseFaithful(oracle, parse, lines[i].value, cfg, calls);
        }
      }
    }
  }

  /** Skipped lines cost nothing: with no line left to query, the run appends nothing and makes no oracle call. */
  lemma {:induction false} NothingAdmittedNoCalls<P>(oracle: (nat, seq<Message>) -> Reply, parse: (string, string, bool) -> Option<P>,
                                                     lines: seq<Option<TaskRecord>>, cfg: Config, resume: set<string>, i: nat, calls: nat)
    requires i <= |lines|
    requires forall j :: i <= j < |lines| ==> Screen(lines[j], cfg, resume).Skip?
    ensures RunFrom(oracle, parse, lines, cfg, resume, i, calls) == RunResult([], Finished, calls)
    decreases |lines| - i
  {
    if i < |lines| {
      NothingAdmittedNoCalls(oracle, parse, lines, cfg, resume, i + 1, calls);
    }
  }

  lemma {:induction false} AdmittedTaskListed(lines: seq<Option<TaskRecord>>, cfg: Config, resume: set<string>, j: nat)
    requires j < |lines| && Screen(lines[j], cfg, resume).Process?
    ensures lines[j].value in AdmittedTasks(lines, cfg, resume)
    decreases |lines|
  {
    if j > 0 {
      AdmittedTaskListed(lines[1..], cfg, resume, j - 1);
    }
  }

  lemma {:induction false} TaskOfSomeRecord<P>(records: seq<ResultRecord<P>>, t: TaskRecord)
    requires t in Tasks(records)
    ensures exists r :: r in records && r.task == t
    decreases |records|
  {
    if records[0].task != t {
      TaskOfSomeRecord(records[1..], t);
      var r :| r in records[1..] && r.task == t;
      assert r in records;
    }
  }

  /**
   * Idempotent resumption: after a run that finished over input lines with
   * non-empty task ids, a second run over the same lines and the extended log
   * queries nothing, appends nothing and finishes, whatever its oracle does.
   */
  lemma SecondRunNoOp<P>(oracle: (nat, seq<Message>) -> Reply, oracle2: (nat, seq<Message>) -> Reply,
                         parse: (string, string, bool) -> Option<P>,
                         log: seq<LogLine<P>>, lines: seq<Option<TaskRecord>>, cfg: Config)
    requires ResumeSet(log).Some?
    requires Run(oracle, parse, log, lines, cfg).end == Finished
    requires forall j :: 0 <= j < |lines| && lines[j].Some? ==> lines[j].value.taskId != ""
    ensures Run(oracle2, parse, log + WrittenLines(Run(oracle, parse, log, lines, cfg).appended), lines, cfg)
         == RunResult([], Finished, 0)
  {
    var resume := ResumeSet(log).value;
    var rr := RunFrom(oracle, parse, lines, cfg, resume, 0, 0);
    ResumeAfterAppend(log, rr.appended);
    var resume' := resume + RecordedIds(rr.appended);
    NoCrashBeforeStop(oracle, parse, lines, cfg, resume, 0, 0);
    RunFromShape(oracle, parse, lines, cfg, resume, 0, 0);
    assert lines[0..|lines|] == lines;
    forall j | 0 <= j < |lines| ensures Screen(lines[j], cfg, resume').Skip? {
      if Screen(lines[j], cfg, resume).Process? {
        var t := lines[j].value;
        AdmittedTaskListed(lines, cfg, resume, j);
        TaskOfSomeRecord(rr.appended, t);
        var r :| r in rr.appended && r.task == t;
        assert t.taskId in RecordedIds(rr.appended);
      }
    }
    NothingAdmittedNoCalls(oracle2, parse, lines, cfg, resume', 0, 0);
  }

  /**
   * The resume set is not extended during a run: a task id that occurs twice
   * in one input partition is queried and appended twice.
   */
  lemma DuplicateAppendedTwice<P>(oracle: (nat, seq<Message>) -> Reply, parse: (string, string, bool) -> Option<P>,
                                  t: TaskRecord, cfg: Config, resume: set<string>)
    requires Admitted(t, cfg, resume)
    requires forall k, m :: oracle(k, m).Ok?
    ensures var rr := RunFrom(oracle, parse, [Some(t), Some(t)], cfg, resume, 0, 0);
      rr.end == Finished && |rr.appended| == 2 && rr.appended[0].task == t && rr.appended[1].task == t
  {
    var lines := [Some(t), Some(t)];
    var taskType := TaskType(t.taskId);
    NeverRaisingCompletes(oracle, parse, t.prompt, taskType, cfg.trace, 0);
    var first := QueryTask(oracle, parse, t.prompt, taskType, cfg.trace, 0).state;
    NeverRaisingCompletes(oracle, parse, t.prompt, taskType, cfg.trace, first.calls);
    var second := QueryTask(oracle, parse, t.prompt, taskType, cfg.trace, first.calls).state;
    assert RunFrom(oracle, parse, lines, cfg, resume, 2, second.calls) == RunResult([], Finished, second.calls);
    assert RunFrom(oracle, parse, lines, cfg, resume, 1, first.calls).appended
        == [ResultRecord(t, ResponseOf(second))];
  }

  /**
   * Outer-bound exhaustion halts the partition: with an oracle that always
   * raises, a run appends nothing, and it finishes only when no line was to
   * be queried.
   */
  lemma {:induction false} AlwaysRaisingAppendsNothing<P>(oracle: (nat, seq<Message>) -> Reply, parse: (string, string, bool) -> Option<P>,
                                                          lines: seq<Option<TaskRecord>>, cfg: Config, resume: set<string>, i: nat, calls: nat)
    requires i <= |lines|
    requires forall k, m :: oracle(k, m).Fail?
    ensures var rr := RunFrom(oracle, parse, lines, cfg, resume, i, calls);
      rr.appended == [] && (rr.end.Finished? ==> AdmittedTasks(lines[i..], cfg, resume) == [])
    decreases |lines| - i
  {
    if i < |lines| {
      match Screen(lines[i], cfg, resume)
      case Skip => AlwaysRaisingAppendsNothing(oracle, parse, lines, cfg, resume, i + 1, calls);
      case Crash =>
      case Process(taskType) =>
        AlwaysRaisingFails(oracle, parse, taskType, cfg.trace, Start(lines[i].value.prompt, calls), TIMEOUT_ITER);
    }
    RunFromShape(oracle, parse, lines, cfg, resume, i, calls);
    assert lines[i..|lines|] == lines[i..];
  }
}
