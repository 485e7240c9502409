/**
 * The query engine: drives one task through the two nested retry bounds.
 *
 * The oracle adapter is modelled as a total function from the call number and
 * the conversation sent to the reply it gives (a raw text with its input and
 * output unit counts, or a raised error); it is an infinite script that the
 * executor consumes one call at a time. The result parser is a function
 * parameter as well.
 */
module Query {
  import opened Wrappers
  import opened Records

  /** Conversational turns per outer attempt. */
  const MAX_ITER: nat := 3
  /** Outer attempts after the oracle raises. */
  const TIMEOUT_ITER: nat := 100
  /** The corrective user turn appended after a rejected output. */
  const RETRY_PROMPT: string :=
    "Your previous response could not be parsed correctly. "
    + "Please re-read the prompt and ensure your answer strictly follows the required JSON format enclosed with ```<your response here>```."
    + "Ensure that your JSON is valid and matches the specification. Try again:"

  datatype Role = User | Assistant
  datatype Message = Message(role: Role, content: string)

  /** One oracle call: a raw output with its unit counts, or a raised error. */
  datatype Reply = Ok(text: string, inLen: int, outLen: int) | Fail

  /**
   * The task's local variables: the conversation, the raw outputs, the last
   * parse, the unit counts, the duration, and the number of the next oracle call.
   */
  datatype Attempt<P> = Attempt(
    messages: seq<Message>,
    responses: seq<string>,
    parsed: Option<P>,
    inLen: int,
    outLen: int,
    time: Elapsed,
    calls: nat)

  /**
   * How one outer attempt (the body of the `try`) ends, and likewise how a
   * whole task ends: completed, or raised in every attempt.
   */
  datatype TryOutcome<P> = Completed(state: Attempt<P>) | Raised(state: Attempt<P>)

  /** The state created once per task, before the outer loop. */
  function Start<P>(prompt: string, calls: nat): Attempt<P> {
    Attempt([Message(User, prompt)], [], None, -1, -1, Unmeasured, calls)
  }

  function Last<T>(s: seq<T>): T
    requires s != []
  {
    s[|s| - 1]
  }

  /** The state after a turn whose output the parser rejected. */
  function Rejecting<P>(s: Attempt<P>, text: string): Attempt<P> {
    s.(responses := s.responses + [text], parsed := None, calls := s.calls + 1,
       messages := s.messages + [Message(Assistant, text), Message(User, RETRY_PROMPT)])
  }

  /** The state after a turn whose output parsed, with that call's unit counts. */
  function Accepting<P>(s: Attempt<P>, reply: Reply, parsed: Option<P>): Attempt<P>
    requires reply.Ok?
  {
    s.(responses := s.responses + [reply.text], parsed := parsed, calls := s.calls + 1,
       inLen := reply.inLen, outLen := reply.outLen, time := Measured)
  }

  /** The inner loop with `left` turns to go. */
  function Turns<P>(oracle: (nat, seq<Message>) -> Reply, parse: (string, string, bool) -> Option<P>,
                    taskType: string, trace: bool, s: Attempt<P>, left: nat): TryOutcome<P>
    decreases left
  {
    if left == 0 then Completed(s.(time := Measured))
    else
      match oracle(s.calls, s.messages)
      case Fail => Raised(s.(calls := s.calls + 1))
      case Ok(text, _, _) =>
        var parsed := parse(text, taskType, trace);
        if parsed.Some? then Completed(Accepting(s, oracle(s.calls, s.messages), parsed))
        else Turns(oracle, parse, taskType, trace, Rejecting(s, text), left - 1)
  }

  /** The outer loop with `left` attempts to go; `Raised` when every one of them raised. */
  function Attempts<P>(oracle: (nat, seq<Message>) -> Reply, parse: (string, string, bool) -> Option<P>,
                       taskType: string, trace: bool, s: Attempt<P>, left: nat): TryOutcome<P>
    decreases left
  {
    if left == 0 then Raised(s)
    else
      match Turns(oracle, parse, taskType, trace, s, MAX_ITER)
      case Completed(done) => Completed(done)
      case Raised(failed) => Attempts(oracle, parse, taskType, trace, failed, left - 1)
  }

  /** The whole query of one task whose first oracle call has number `calls`. */
  function QueryTask<P>(oracle: (nat, seq<Message>) -> Reply, parse: (string, string, bool) -> Option<P>,
                        prompt: string, taskType: string, trace: bool, calls: nat): TryOutcome<P>
  {
    Attempts(oracle, parse, taskType, trace, Start(prompt, calls), TIMEOUT_ITER)
  }

  /**
   * One outer attempt as the executor runs it (the body of the `try`): at
   * most MAX_ITER turns, each calling the oracle, recording the output and
   * parsing it; a parse ends the attempt with that turn's unit counts, a
   * rejection appends the output and the retry prompt to the conversation,
   * and a raised oracle error ends the attempt at once.
   */
  method RunAttempt<P>(oracle: (nat, seq<Message>) -> Reply, parse: (string, string, bool) -> Option<P>,
                       taskType: string, trace: bool, s: Attempt<P>)
    returns (o: TryOutcome<P>)
    ensures o == Turns(oracle, parse, taskType, trace, s, MAX_ITER)
  {
    ghost var goal := Turns(oracle, parse, taskType, trace, s, MAX_ITER);
    var cur := s;
    var turn := 0;
    while turn < MAX_ITER
      invariant turn <= MAX_ITER
      invariant goal == Turns(oracle, parse, taskType, trace, cur, MAX_ITER - turn)
    {
      var reply := oracle(cur.calls, cur.messages);
      if reply.Fail? {
        TurnsOnFail(oracle, parse, taskType, trace, cur, MAX_ITER - turn);
        return Raised(cur.(calls := cur.calls + 1));
      }
      var parsed := parse(reply.text, taskType, trace);
      if parsed.Some? {
        TurnsOnAccept(oracle, parse, taskType, trace, cur, MAX_ITER - turn);
        return Completed(Accepting(cur, reply, parsed));
      }
      TurnsOnReject(oracle, parse, taskType, trace, cur, MAX_ITER - turn);
      cur := Rejecting(cur, reply.text);
      turn := turn + 1;
    }
    o := Completed(cur.(time := Measured));
  }

  /**
   * The outer loop as the executor runs it: the task's variables are created
   * once, before the loop, and carried from one attempt to the next; the loop
   * stops at the first attempt that does not raise, after TIMEOUT_ITER
   * attempts at most.
   */
  method RunQuery<P>(oracle: (nat, seq<Message>) -> Reply, parse: (string, string, bool) -> Option<P>,
                     prompt: string, taskType: string, trace: bool, calls0: nat)
    returns (r: TryOutcome<P>)
    ensures r == QueryTask(oracle, parse, prompt, taskType, trace, calls0)
  {
    var state: Attempt<P> := Start(prompt, calls0);
    var attempt := 0;
    while attempt < TIMEOUT_ITER
      invariant attempt <= TIMEOUT_ITER
      invariant QueryTask(oracle, parse, prompt, taskType, trace, calls0)
             == Attempts(oracle, parse, taskType, trace, state, TIMEOUT_ITER - attempt)
    {
      var outcome := RunAttempt(oracle, parse, taskType, trace, state);
      if outcome.Completed? {
        return outcome;
      }
      state := outcome.state;
      attempt := attempt + 1;
    }
    r := Raised(state);
  }

  /**
   * The conversation after the given rejected outputs: the prompt, then for
   * each rejection an assistant turn holding it and a user turn holding
   * RETRY_PROMPT.
   */
  function Conversation(prompt: string, rejected: seq<string>): (c: seq<Message>)
    ensures |c| == 1 + 2 * |rejected|
    ensures c[0] == Message(User, prompt)
    decreases |rejected|
  {
    if rejected == [] then [Message(User, prompt)]
    else Conversation(prompt, rejected[..|rejected| - 1]) + [Message(Assistant, Last(rejected)), Message(User, RETRY_PROMPT)]
  }

  /** Turn 2i+1 of the conversation is the i-th rejected output, turn 2i+2 the retry instruction. */
  lemma {:induction false} ConversationShape(prompt: string, rejected: seq<string>, i: nat)
    requires i < |rejected|
    ensures Conversation(prompt, rejected)[2 * i + 1] == Message(Assistant, rejected[i])
    ensures Conversation(prompt, rejected)[2 * i + 2] == Message(User, RETRY_PROMPT)
    decreases |rejected|
  {
    if i < |rejected| - 1 {
      ConversationShape(prompt, rejected[..|rejected| - 1], i);
    }
  }

  /** The raw outputs the parser rejected: all of them, or all but the one that parsed. */
  function Rejected<P>(s: Attempt<P>): seq<string> {
    if s.parsed.Some? && s.responses != [] then s.responses[..|s.responses| - 1] else s.responses
  }

  /**
   * What holds of a task's variables between oracle calls: the conversation is
   * the prompt followed by two turns per rejected output; every rejected output
   * was rejected by the parser; the unit counts are -1 unless a parse succeeded,
   * and then the parsed value and the counts come from the last call, made
   * with the current conversation.
   */
  ghost predicate Coherent<P>(oracle: (nat, seq<Message>) -> Reply, parse: (string, string, bool) -> Option<P>,
                              prompt: string, taskType: string, trace: bool, s: Attempt<P>)
  {
    && s.messages == Conversation(prompt, Rejected(s))
    && (forall i :: 0 <= i < |Rejected(s)| ==> parse(Rejected(s)[i], taskType, trace).None?)
    && (s.parsed.None? ==> s.inLen == -1 && s.outLen == -1)
    && (s.parsed.Some? ==>
          && s.responses != [] && s.calls > 0
          && parse(Last(s.responses), taskType, trace) == s.parsed
          && oracle(s.calls - 1, s.messages) == Ok(Last(s.responses), s.inLen, s.outLen))
  }

  lemma ConversationGrows(prompt: string, rejected: seq<string>, text: string)
    ensures Conversation(prompt, rejected + [text])
         == Conversation(prompt, rejected) + [Message(Assistant, text), Message(User, RETRY_PROMPT)]
  {
    assert (rejected + [text])[..|rejected|] == rejected;
  }

  lemma RejectingCoherent<P>(oracle: (nat, seq<Message>) -> Reply, parse: (string, string, bool) -> Option<P>,
                             prompt: string, taskType: string, trace: bool, s: Attempt<P>, text: string)
    requires Coherent(oracle, parse, prompt, taskType, trace, s) && s.parsed.None?
    requires parse(text, taskType, trace).None?
    ensures Coherent(oracle, parse, prompt, taskType, trace, Rejecting(s, text))
  {
    var s' := Rejecting(s, text);
    ConversationGrows(prompt, s.responses, text);
    assert Rejected(s') == Rejected(s) + [text];
  }

  lemma AcceptingCoherent<P>(oracle: (nat, seq<Message>) -> Reply, parse: (string, string, bool) -> Option<P>,
                             prompt: string, taskType: string, trace: bool, s: Attempt<P>)
    requires Coherent(oracle, parse, prompt, taskType, trace, s) && s.parsed.None?
    requires oracle(s.calls, s.messages).Ok?
    requires parse(oracle(s.calls, s.messages).text, taskType, trace).Some?
    ensures var reply := oracle(s.calls, s.messages);
      Coherent(oracle, parse, prompt, taskType, trace, Accepting(s, reply, parse(reply.text, taskType, trace)))
  {
    var reply := oracle(s.calls, s.messages);
    var s' := Accepting(s, reply, parse(reply.text, taskType, trace));
    assert Rejected(s') == Rejected(s) by {
      assert s'.responses[..|s'.responses| - 1] == s.responses;
    }
  }

  /** Counting a call that raised, or stamping the duration, keeps a coherent state without a parse coherent. */
  lemma IdleCoherent<P>(oracle: (nat, seq<Message>) -> Reply, parse: (string, string, bool) -> Option<P>,
                        prompt: string, taskType: string, trace: bool, s: Attempt<P>, calls: nat, time: Elapsed)
    requires Coherent(oracle, parse, prompt, taskType, trace, s) && s.parsed.None?
    ensures Coherent(oracle, parse, prompt, taskType, trace, s.(calls := calls, time := time))
  {
    assert Rejected(s.(calls := calls, time := time)) == Rejected(s);
  }

  /** A turn whose oracle call raises ends the attempt with the call counted. */
  lemma TurnsOnFail<P>(oracle: (nat, seq<Message>) -> Reply, parse: (string, string, bool) -> Option<P>,
                       taskType: string, trace: bool, s: Attempt<P>, left: nat)
    requires left > 0 && oracle(s.calls, s.messages).Fail?
    ensures Turns(oracle, parse, taskType, trace, s, left) == Raised(s.(calls := s.calls + 1))
  {
  }

  /** A turn whose output the parser rejects continues with the rejecting state and one turn fewer. */
  lemma TurnsOnReject<P>(oracle: (nat, seq<Message>) -> Reply, parse: (string, string, bool) -> Option<P>,
                         taskType: string, trace: bool, s: Attempt<P>, left: nat)
    requires left > 0 && oracle(s.calls, s.messages).Ok?
    requires parse(oracle(s.calls, s.messages).text, taskType, trace).None?
    ensures Turns(oracle, parse, taskType, trace, s, left)
         == Turns(oracle, parse, taskType, trace, Rejecting(s, oracle(s.calls, s.messages).text), left - 1)
  {
  }

  /** A turn whose output parses completes the attempt with that output's counts. */
  lemma TurnsOnAccept<P>(oracle: (nat, seq<Message>) -> Reply, parse: (string, string, bool) -> Option<P>,
                         taskType: string, trace: bool, s: Attempt<P>, left: nat)
    requires left > 0 && oracle(s.calls, s.messages).Ok?
    requires parse(oracle(s.calls, s.messages).text, taskType, trace).Some?
    ensures var reply := oracle(s.calls, s.messages);
      Turns(oracle, parse, taskType, trace, s, left)
        == Completed(Accepting(s, reply, parse(reply.text, taskType, trace)))
  {
  }

  /** One outer attempt keeps the task's variables coherent, and it raises only with nothing parsed. */
  lemma {:induction false} TurnsCoherent<P>(oracle: (nat, seq<Message>) -> Reply, parse: (string, string, bool) -> Option<P>,
                                            prompt: string, taskType: string, trace: bool, s: Attempt<P>, left: nat)
    requires Coherent(oracle, parse, prompt, taskType, trace, s) && s.parsed.None?
    ensures var o := Turns(oracle, parse, taskType, trace, s, left);
      && Coherent(oracle, parse, prompt, taskType, trace, o.state)
      && (o.Raised? ==> o.state.parsed.None?)
    decreases left
  {
    if left == 0 {
      IdleCoherent(oracle, parse, prompt, taskType, trace, s, s.calls, Measured);
    } else if oracle(s.calls, s.messages).Fail? {
      assert Turns(oracle, parse, taskType, trace, s, left) == Raised(s.(calls := s.calls + 1));
      IdleCoherent(oracle, parse, prompt, taskType, trace, s, s.calls + 1, s.time);
    } else {
      var text := oracle(s.calls, s.messages).text;
      if parse(text, taskType, trace).None? {
        RejectingCoherent(oracle, parse, prompt, taskType, trace, s, text);
        TurnsOnReject(oracle, parse, taskType, trace, s, left);
        TurnsCoherent(oracle, parse, prompt, taskType, trace, Rejecting(s, text), left - 1);
      } else {
        AcceptingCoherent(oracle, parse, prompt, taskType, trace, s);
        TurnsOnAccept(oracle, parse, taskType, trace, s, left);
      }
    }
  }

  /**
   * One outer attempt only ever extends the conversation and the raw outputs,
   * makes at most `left` oracle calls and records at most one output per call,
   * none for the call that raised; when it runs out of turns without a parse it
   * has recorded exactly `left` outputs, and with turns to go it records at
   * least one before completing.
   */
  lemma {:induction false} TurnsBounds<P>(oracle: (nat, seq<Message>) -> Reply, parse: (string, string, bool) -> Option<P>,
                                          taskType: string, trace: bool, s: Attempt<P>, left: nat)
    ensures var o := Turns(oracle, parse, taskType, trace, s, left);
      && s.responses <= o.state.responses && s.messages <= o.state.messages
      && s.calls + |o.state.responses| - |s.responses| <= o.state.calls <= s.calls + left
      && (o.Raised? ==> s.calls + |o.state.responses| - |s.responses| < o.state.calls)
      && (o.Completed? ==> o.state.time == Measured)
      && (o.Completed? && o.state.parsed.None? && s.parsed.None? ==> |o.state.responses| - |s.responses| == left)
      && (o.Completed? && left > 0 ==> |s.responses| < |o.state.responses|)
    decreases left
  {
    if left > 0 && oracle(s.calls, s.messages).Ok? {
      var text := oracle(s.calls, s.messages).text;
      var parsed := parse(text, taskType, trace);
      if parsed.None? {
        TurnsBounds(oracle, parse, taskType, trace, Rejecting(s, text), left - 1);
      }
    }
  }

  /** A sequence of outer attempts that ends in success leaves the task's variables coherent. */
  lemma {:induction false} AttemptsCoherent<P>(oracle: (nat, seq<Message>) -> Reply, parse: (string, string, bool) -> Option<P>,
                                               prompt: string, taskType: string, trace: bool, s: Attempt<P>, left: nat)
    requires Coherent(oracle, parse, prompt, taskType, trace, s) && s.parsed.None?
    ensures var r := Attempts(oracle, parse, taskType, trace, s, left);
      r.Completed? ==> Coherent(oracle, parse, prompt, taskType, trace, r.state)
    decreases left
  {
    if left > 0 {
      TurnsCoherent(oracle, parse, prompt, taskType, trace, s, MAX_ITER);
      match Turns(oracle, parse, taskType, trace, s, MAX_ITER)
      case Completed(done) =>
      case Raised(failed) =>
        AttemptsCoherent(oracle, parse, prompt, taskType, trace, failed, left - 1);
    }
  }

  /**
   * A sequence of outer attempts that ends in success leaves a measured
   * duration and extends the conversation and the raw outputs by at least one
   * output; since a failed attempt records at most MAX_ITER - 1 outputs, at
   * most (left - 1) * (MAX_ITER - 1) + MAX_ITER outputs and left * MAX_ITER
   * oracle calls are added.
   */
  lemma {:induction false} AttemptsBounds<P>(oracle: (nat, seq<Message>) -> Reply, parse: (string, string, bool) -> Option<P>,
                                             taskType: string, trace: bool, s: Attempt<P>, left: nat)
    ensures var r := Attempts(oracle, parse, taskType, trace, s, left);
      r.Completed? ==>
        && r.state.time == Measured
        && s.responses <= r.state.responses && s.messages <= r.state.messages
        && |s.responses| < |r.state.responses| <= |s.responses| + (left - 1) * (MAX_ITER - 1) + MAX_ITER
        && s.calls <= r.state.calls <= s.calls + left * MAX_ITER
    decreases left
  {
    if left > 0 {
      TurnsBounds(oracle, parse, taskType, trace, s, MAX_ITER);
      match Turns(oracle, parse, taskType, trace, s, MAX_ITER)
      case Completed(done) =>
      case Raised(failed) =>
        AttemptsBounds(oracle, parse, taskType, trace, failed, left - 1);
        var r := Attempts(oracle, parse, taskType, trace, failed, left - 1);
        if r.Completed? {
          assert |failed.responses| <= |s.responses| + (MAX_ITER - 1);
          assert (left - 1) * (MAX_ITER - 1) == (left - 2) * (MAX_ITER - 1) + (MAX_ITER - 1);
          assert left * MAX_ITER == (left - 1) * MAX_ITER + MAX_ITER;
        }
    }
  }

  /**
   * A completed task: its conversation is the prompt plus two turns per
   * rejected output, its duration was measured, and it holds between 1 and
   * (TIMEOUT_ITER - 1) * (MAX_ITER - 1) + MAX_ITER raw outputs (so at most
   * MAX_ITER * TIMEOUT_ITER) from at most MAX_ITER * TIMEOUT_ITER oracle calls.
   */
  lemma QueryTaskCompleted<P>(oracle: (nat, seq<Message>) -> Reply, parse: (string, string, bool) -> Option<P>,
                              prompt: string, taskType: string, trace: bool, calls: nat)
    ensures var r := QueryTask(oracle, parse, prompt, taskType, trace, calls);
      r.Completed? ==>
        && Coherent(oracle, parse, prompt, taskType, trace, r.state)
        && r.state.time == Measured
        && 1 <= |r.state.responses| <= (TIMEOUT_ITER - 1) * (MAX_ITER - 1) + MAX_ITER <= MAX_ITER * TIMEOUT_ITER
        && calls <= r.state.calls <= calls + MAX_ITER * TIMEOUT_ITER
  {
    var s: Attempt<P> := Start(prompt, calls);
    assert Rejected(s) == [];
    AttemptsCoherent(oracle, parse, prompt, taskType, trace, s, TIMEOUT_ITER);
    AttemptsBounds(oracle, parse, taskType, trace, s, TIMEOUT_ITER);
  }

  /** With an oracle that never raises, the first outer attempt completes, one call per raw output. */
  lemma {:induction false} TurnsNeverRaise<P>(oracle: (nat, seq<Message>) -> Reply, parse: (string, string, bool) -> Option<P>,
                                              taskType: string, trace: bool, s: Attempt<P>, left: nat)
    requires forall k, m :: oracle(k, m).Ok?
    ensures var o := Turns(oracle, parse, taskType, trace, s, left);
      o.Completed? && o.state.calls - s.calls == |o.state.responses| - |s.responses| <= left
    decreases left
  {
    if left > 0 {
      match oracle(s.calls, s.messages)
      case Ok(text, inLen, outLen) =>
        if parse(text, taskType, trace).None? {
          TurnsNeverRaise(oracle, parse, taskType, trace, Rejecting(s, text), left - 1);
        }
    }
  }

  /** Without oracle errors every task completes within one outer attempt. */
  lemma NeverRaisingCompletes<P>(oracle: (nat, seq<Message>) -> Reply, parse: (string, string, bool) -> Option<P>,
                                 prompt: string, taskType: string, trace: bool, calls: nat)
    requires forall k, m :: oracle(k, m).Ok?
    ensures var r := QueryTask(oracle, parse, prompt, taskType, trace, calls);
      r.Completed? && r.state.calls == calls + |r.state.responses| && |r.state.responses| <= MAX_ITER
  {
    TurnsNeverRaise(oracle, parse, taskType, trace, Start<P>(prompt, calls), MAX_ITER);
  }

  /**
   * Inner-bound exhaustion still completes: when the parser rejects every
   * output, the task completes after exactly MAX_ITER turns with nothing
   * parsed, -1 unit counts, and a conversation of 1 + 2 * MAX_ITER turns.
   */
  lemma ExhaustedTurnsComplete<P>(oracle: (nat, seq<Message>) -> Reply, parse: (string, string, bool) -> Option<P>,
                                  prompt: string, taskType: string, trace: bool, calls: nat)
    requires forall k, m :: oracle(k, m).Ok?
    requires forall t :: parse(t, taskType, trace).None?
    ensures var r := QueryTask(oracle, parse, prompt, taskType, trace, calls);
      && r.Completed? && r.state.parsed.None?
      && |r.state.responses| == MAX_ITER
      && r.state.inLen == -1 && r.state.outLen == -1
      && |r.state.messages| == 1 + 2 * MAX_ITER
  {
    var s: Attempt<P> := Start(prompt, calls);
    assert Rejected(s) == [];
    NeverRaisingCompletes(oracle, parse, prompt, taskType, trace, calls);
    TurnsBounds(oracle, parse, taskType, trace, s, MAX_ITER);
    QueryTaskCompleted(oracle, parse, prompt, taskType, trace, calls);
  }

  /** With an oracle that always raises, every outer attempt raises and the task fails. */
  lemma {:induction false} AlwaysRaisingFails<P>(oracle: (nat, seq<Message>) -> Reply, parse: (string, string, bool) -> Option<P>,
                                                 taskType: string, trace: bool, s: Attempt<P>, left: nat)
    requires forall k, m :: oracle(k, m).Fail?
    ensures Attempts(oracle, parse, taskType, trace, s, left).Raised?
    decreases left
  {
    if left > 0 {
      assert oracle(s.calls, s.messages).Fail?;
      AlwaysRaisingFails(oracle, parse, taskType, trace, s.(calls := s.calls + 1), left - 1);
    }
  }

  /** A first output the parser accepts ends the task at once: one output, its counts, no retry turn. */
  lemma FirstTurnParses<P>(oracle: (nat, seq<Message>) -> Reply, parse: (string, string, bool) -> Option<P>,
                           prompt: string, taskType: string, trace: bool, calls: nat)
    requires oracle(calls, [Message(User, prompt)]).Ok?
    requires parse(oracle(calls, [Message(User, prompt)]).text, taskType, trace).Some?
    ensures var reply := oracle(calls, [Message(User, prompt)]);
      QueryTask(oracle, parse, prompt, taskType, trace, calls)
        == Completed(Attempt([Message(User, prompt)], [reply.text], parse(reply.text, taskType, trace),
                        reply.inLen, reply.outLen, Measured, calls + 1))
  {
    var reply := oracle(calls, [Message(User, prompt)]);
    var s: Attempt<P> := Start(prompt, calls);
    assert Turns(oracle, parse, taskType, trace, s, MAX_ITER)
        == Completed(Attempt([Message(User, prompt)], [reply.text], parse(reply.text, taskType, trace),
                             reply.inLen, reply.outLen, Measured, calls + 1));
  }
}
