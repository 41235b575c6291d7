/**
 * The reports the model steps of a run have made, and what an executor's answers have to do with them
 * (dispatcher/claude-agent-sdk/src/componentInvocation.ts, `execute` and `runStep`).
 */
module StepReports {
  import opened Prelude
  import opened Profile
  import opened Conditional
  import opened StepExecution
  import opened StepTurns
  import opened Ledger

  /** What the model step does in the end. */
  datatype StepReport =
    | Returned(text: string, telemetry: Telemetry)
    | FailedStep(prefix: Prefix, retryable: bool, message: string, telemetry: Telemetry)
    | Crashed(error: Thrown, message: string)

  /** One `runStep`: the frame's call, the step, and its report. */
  datatype Reported = Reported(callId: Option<nat>, step: string, report: StepReport)

  // ---- the reports of one frame --------------------------------------------------------------

  function Made(log: seq<Reported>, id: Option<nat>): seq<Reported> {
    if log == [] then []
    else
      var n := |log| - 1;
      Made(log[..n], id) + (if log[n].callId == id then [log[n]] else [])
  }

  /** The root frame and the frames of the first `calls` calls. */
  predicate Known(id: Option<nat>, calls: nat) { id.Some? ==> id.value < calls }

  /** From `log` to `log'` the frame `id` made the reports `own`, and no other frame known before made any. */
  ghost predicate Grew(log: seq<Reported>, log': seq<Reported>, calls: nat, id: Option<nat>, own: seq<Reported>) {
    forall k :: Known(k, calls) ==> Made(log', k) == Made(log, k) + if k == id then own else []
  }

  lemma {:induction false} GrewNothing(log: seq<Reported>, calls: nat, id: Option<nat>)
    ensures Grew(log, log, calls, id, [])
  {
  }

  lemma {:induction false} GrewByOne(log: seq<Reported>, calls: nat, id: Option<nat>, step: string, report: StepReport)
    ensures Grew(log, log + [Reported(id, step, report)], calls, id, [Reported(id, step, report)])
  {
    assert (log + [Reported(id, step, report)])[..|log|] == log;
  }

  lemma {:induction false} GrewTwice(a: seq<Reported>, b: seq<Reported>, c: seq<Reported>, before: nat, between: nat,
                                     id: Option<nat>, first: seq<Reported>, second: seq<Reported>)
    requires Grew(a, b, before, id, first) && Grew(b, c, between, id, second) && before <= between
    ensures Grew(a, c, before, id, first + second)
  {
    forall k | Known(k, before) ensures Made(c, k) == Made(a, k) + if k == id then first + second else [] {
      assert Known(k, between);
      assert Made(c, k) == Made(a, k) + (if k == id then first else []) + (if k == id then second else []);
    }
  }

  /** What a frame that came later reports, no earlier frame does. */
  lemma {:induction false} GrewElsewhere(a: seq<Reported>, b: seq<Reported>, before: nat, calls: nat,
                                         child: Option<nat>,
                                         own: seq<Reported>, id: Option<nat>)
    requires Grew(a, b, calls, child, own) && before <= calls && child.Some? && child.value >= before
    ensures Grew(a, b, before, id, [])
  {
    forall k | Known(k, before) ensures Made(b, k) == Made(a, k) {
      assert Known(k, calls);
    }
  }

  // ---- what an answer has to do with a report ------------------------------------------------

  /** The runtime threw one of its own errors in place of what the report says. */
  predicate Refused(answer: Answer) {
    answer.Raised? && (answer.error == Dispatch(OtherPrefix) || answer.error == Dispatch(BudgetExhausted)
                       || answer.error == Dispatch(Cancelled))
  }

  /**
   * The answer is the report's text or error, unless the runtime refused it; and without a report the run was
   * cancelled or out of turns before the model step began.
   */
  predicate AnswerTo(report: Option<StepReport>, answer: Answer) {
    match report
    case None => Refused(answer) && answer.error != Dispatch(OtherPrefix)
    case Some(Returned(text, _)) => answer == Answered(text) || Refused(answer)
    case Some(FailedStep(prefix, retryable, message, _)) =>
      answer == Raised(StepError(prefix, retryable), message) || Refused(answer)
    case Some(Crashed(error, message)) => answer == Raised(error, message)
  }

  function Logged(id: Option<nat>, step: string, report: Option<StepReport>): seq<Reported> {
    match report case None => [] case Some(r) => [Reported(id, step, r)]
  }

  /** The reports of one turn: none for a step that is skipped, at most one for a step that takes its turn. */
  predicate TurnReports(steps: seq<LlmStep>, parse: Parser, i: nat, st: ExecState, answer: Answer, id: Option<nat>,
                        own: seq<Reported>)
    requires i < |steps|
  {
    if !TakesTurn(steps, parse, i, st) then own == []
    else
      || (own == [] && AnswerTo(None, answer))
      || (|own| == 1 && own == Logged(id, steps[i].name, Some(own[0].report)) && AnswerTo(Some(own[0].report), answer))
  }

  /** The reports of a run, turn by turn. */
  ghost predicate RunReports(steps: seq<LlmStep>, parse: Parser, answers: seq<Answer>, id: Option<nat>,
                             own: seq<Reported>)
    requires |answers| <= |steps|
  {
    if answers == [] then own == []
    else
      var n := |answers| - 1;
      && RunSteps(steps, parse, answers[..n]).Ok?
      && exists k :: 0 <= k <= |own| && RunReports(steps, parse, answers[..n], id, own[..k])
                     && TurnReports(steps, parse, n, RunSteps(steps, parse, answers[..n]).value, answers[n], id,
                         own[k..])
  }

  lemma {:induction false} RunReportsSnoc(steps: seq<LlmStep>, parse: Parser, answers: seq<Answer>, answer: Answer,
                                          id: Option<nat>, own: seq<Reported>, more: seq<Reported>)
    requires |answers| < |steps| && RunSteps(steps, parse, answers).Ok? && RunReports(steps, parse, answers, id, own)
    requires TurnReports(steps, parse, |answers|, RunSteps(steps, parse, answers).value, answer, id, more)
    ensures RunSteps(steps, parse, answers + [answer])
            == Advance(steps, parse, |answers|, RunSteps(steps, parse, answers).value, answer)
    ensures RunReports(steps, parse, answers + [answer], id, own + more)
  {
    var n := |answers|;
    assert (answers + [answer])[..n] == answers;
    assert (own + more)[..|own|] == own && (own + more)[|own|..] == more;
  }

  lemma {:induction false} AnsweredTurn(steps: seq<LlmStep>, parse: Parser, i: nat, st: ExecState, answer: Answer,
                                        id: Option<nat>, own: seq<Reported>)
    requires i < |steps| && TakesTurn(steps, parse, i, st) && TurnReports(steps, parse, i, st, answer, id, own)
    requires answer.Answered?
    ensures |own| == 1 && own[0].callId == id && own[0].step == steps[i].name
    ensures own[0].report.Returned? && own[0].report.text == answer.text
  {
  }

  /** Every step that ran and answered did so with the text a model step of its name returned to this frame. */
  lemma {:induction false} AnswersAreReported(steps: seq<LlmStep>, parse: Parser, answers: seq<Answer>, id: Option<nat>,
                                              own: seq<Reported>, i: nat)
    requires |answers| <= |steps| && RunSteps(steps, parse, answers).Ok? && RunReports(steps, parse, answers, id, own)
    requires i in RunSteps(steps, parse, answers).value.ran && i < |answers| && answers[i].Answered?
    ensures exists k :: && 0 <= k < |own| && own[k].callId == id && own[k].step == steps[i].name
                        && own[k].report.Returned? && own[k].report.text == answers[i].text
  {
    var n := |answers| - 1;
    var st := RunSteps(steps, parse, answers[..n]).value;
    var k :| 0 <= k <= |own| && RunReports(steps, parse, answers[..n], id, own[..k])
        && TurnReports(steps, parse, n, st, answers[n], id, own[k..]);
    AdvanceCases(steps, parse, n, st, answers[n]);
    if i == n {
      assert answers[..|answers|] == answers;
      RanInTurn(steps, parse, answers, |answers|, i);
      AnsweredTurn(steps, parse, n, st, answers[n], id, own[k..]);
      assert own[k..][0] == own[k];
    } else {
      AnswersAreReported(steps, parse, answers[..n], id, own[..k], i);
      var j :| && 0 <= j < |own[..k]| && own[..k][j].callId == id && own[..k][j].step == steps[i].name
               && own[..k][j].report.Returned? && own[..k][j].report.text == answers[i].text;
      assert own[j] == own[..k][j];
    }
  }
}
