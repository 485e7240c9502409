/**
 * Command-line validation of the executor: which combinations of prompt
 * path, `--trace`, `--source`, `--lite` and `--model` start a run, in which
 * mode, and which error stops the program otherwise.
 */
module Cli {
  import opened Wrappers

  /** The model names the executor accepts (the keys of its model table). */
  const MODEL_NAMES: set<string> := {
    "claude3.5", "claude3.7", "claude3.7-thinking", "llama3-405b", "ds-r1", "ds-v3",
    "gpt-4o", "o3", "o4-mini", "qwen3", "gemini"
  }

  /** What the file system says about the `--prompt` path. */
  datatype PromptPath = Missing | RegularFile | Directory | OtherKind

  /** The parsed command line, as far as validation looks at it. */
  datatype Args = Args(prompt: PromptPath, lite: Option<string>, trace: bool, source: bool, model: string)

  /** A single prompt file, or a directory of partition files processed in parallel. */
  datatype Mode = SingleFile | Folder

  /** The reasons validation stops the program, in the order they are checked. */
  datatype ArgError =
    | PromptMissing
    | PromptNotFileOrDirectory
    | TraceOnSingleFile
    | SourceNeedsDirectoryAndLite
    | NeedExactlyOneCategory
    | UnknownModel

  datatype Checked = Accepted(mode: Mode) | Rejected(error: ArgError)

  /** `--lite` was given a non-empty path (its truth value in the executor). */
  predicate LiteGiven(a: Args) {
    a.lite.Some? && a.lite.value != ""
  }

  /**
   * The prompt path and flags of a run: a regular file with neither category
   * flag, or a directory with exactly one of them, `--source` only together
   * with `--lite`.
   */
  predicate FlagsValid(a: Args) {
    || (a.prompt == RegularFile && !a.trace && !a.source)
    || (a.prompt == Directory && a.trace != a.source && (a.source ==> LiteGiven(a)))
  }

  /** The command lines that start a run: valid flags and a known model. */
  predicate WellFormed(a: Args) {
    FlagsValid(a) && a.model in MODEL_NAMES
  }

  /**
   * The validation checks in the order the executor makes them. The category
   * check reads as `(directory and neither flag) or (both flags)`, so both
   * flags together are rejected whatever the prompt path is.
   */
  function Validate(a: Args): (c: Checked)
    ensures c.Accepted? <==> WellFormed(a)
    ensures c.Accepted? ==> (c.mode == SingleFile <==> a.prompt == RegularFile)
    ensures a.prompt == Missing ==> c == Rejected(PromptMissing)
    ensures a.trace && a.source ==> c.Rejected?
  {
    var isFile := a.prompt == RegularFile;
    var isFolder := a.prompt == Directory;
    if a.prompt == Missing then Rejected(PromptMissing)
    else if !isFile && !isFolder then Rejected(PromptNotFileOrDirectory)
    else if a.trace && isFile then Rejected(TraceOnSingleFile)
    else if a.source && (isFile || !LiteGiven(a)) then Rejected(SourceNeedsDirectoryAndLite)
    else if (isFolder && (!a.source && !a.trace)) || (a.source && a.trace) then Rejected(NeedExactlyOneCategory)
    else if a.model !in MODEL_NAMES then Rejected(UnknownModel)
    else Accepted(if isFile then SingleFile else Folder)
  }

  /**
   * The category a directory run is restricted to: an accepted directory run
   * has exactly one of `--trace` and `--source`, and an accepted file run has
   * neither, so it processes every category.
   */
  lemma AcceptedCategories(a: Args)
    requires Validate(a).Accepted?
    ensures Validate(a).mode == Folder ==> (a.trace <==> !a.source)
    ensures Validate(a).mode == SingleFile ==> !a.trace && !a.source
    ensures a.source ==> LiteGiven(a)
  {
  }

  /** Each error is reported exactly when the checks before it pass and its own fails. */
  lemma RejectionReasons(a: Args)
    ensures Validate(a) == Rejected(TraceOnSingleFile) <==> a.prompt == RegularFile && a.trace
    ensures Validate(a) == Rejected(SourceNeedsDirectoryAndLite)
        <==> a.source && ((a.prompt == RegularFile && !a.trace) || (a.prompt == Directory && !LiteGiven(a)))
    ensures Validate(a) == Rejected(UnknownModel) <==> FlagsValid(a) && a.model !in MODEL_NAMES
  {
  }
}
