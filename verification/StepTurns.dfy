/**
 * What one turn of the step loop does with the answer it gets, and which answers end a run
 * (dispatcher/claude-agent-sdk/src/componentInvocation.ts, `execute` and the loop of `executeComponent`).
 */
module StepTurns {
  import opened JsObject
  import opened Prelude
  import opened Profile
  import opened Conditional
  import opened StepExecution

  /** An exhausted budget, a cancellation or an unauthorised call: no step that watches can tolerate it. */
  predicate EndsEveryRun(error: Thrown) {
    !error.Foreign?
    && (error.prefix == BudgetExhausted || error.prefix == Cancelled || error.prefix == UnauthorizedCall)
  }

  /** Some conditional step is guarded on the failure of step `i`. */
  predicate Watched(steps: seq<LlmStep>, i: nat)
    requires i < |steps|
  {
    exists g: nat :: g < |steps| && steps[g].conditional && steps[g].when.Some?
                  && steps[g].when.value.guard.OnFailure? && steps[g].when.value.target == steps[i].name
  }

  /** Step `i` is guarded on the failure of the step just before it, and consumes what that step produces. */
  predicate RepairsPrevious(steps: seq<LlmStep>, i: nat)
    requires i < |steps|
  {
    && i > 0 && steps[i].conditional && steps[i].when.Some? && steps[i].when.value.guard.OnFailure?
    && steps[i].when.value.target == steps[i - 1].name
    && steps[i - 1].produces.Some? && steps[i - 1].produces.value in steps[i].consumes
  }

  /** The text a step leaves: its own, or the message of its error. */
  function TextLeft(answer: Answer): string {
    if answer.Answered? then answer.text else answer.message
  }

  /** The text filed under what the step produces, or under its name if it produces nothing. */
  function Filed(steps: seq<LlmStep>, i: nat, st: ExecState, answer: Answer): map<string, string>
    requires i < |steps|
  {
    var key := if steps[i].produces.Some? then steps[i].produces.value else steps[i].name;
    if key == "__proto__" then st.artifacts else st.artifacts[key := TextLeft(answer)]
  }

  /** What a turn that goes on leaves behind. */
  predicate TurnRecorded(steps: seq<LlmStep>, i: nat, st: ExecState, answer: Answer, st': ExecState)
    requires i < |steps|
  {
    && st'.artifacts == Filed(steps, i, st, answer)
    && st'.outcomes == (if steps[i].name == "__proto__" then st.outcomes
                        else st.outcomes[steps[i].name := if answer.Answered? then Success else Failure])
    && st'.finalText == (if answer.Answered? then answer.text else st.finalText)
    && st'.ran == st.ran + {i}
  }

  /** The step's turn neither skips it nor fails on its guard. */
  predicate TakesTurn(steps: seq<LlmStep>, parse: Parser, i: nat, st: ExecState)
    requires i < |steps|
  {
    var d := DecisionAt(steps, parse, i, st.artifacts, st.outcomes);
    !d.Skip? && !d.UnknownGuard?
  }

  /** What happens to an answer: only a watched, ordinary failure of a step that is no repair is gone over. */
  lemma {:induction false} TurnExactly(steps: seq<LlmStep>, parse: Parser, i: nat, st: ExecState, answer: Answer)
    requires i < |steps| && TakesTurn(steps, parse, i, st)
    ensures var next := Advance(steps, parse, i, st, answer);
            && (answer.Answered? ==> next.Ok?)
            && (answer.Raised? && EndsEveryRun(answer.error) ==> next == Err(answer.error))
            && (answer.Raised? && !EndsEveryRun(answer.error) && !RepairsPrevious(steps, i) ==>
                  if Watched(steps, i) then next.Ok? else next == Err(answer.error))
            && (answer.Raised? && !EndsEveryRun(answer.error) && RepairsPrevious(steps, i) ==>
                  var x := steps[i - 1].produces.value;
                  next == Err(if x !in Filed(steps, i, st, answer) && InheritedName(x) then Foreign
                      else Dispatch(OtherPrefix)))
            && (next.Ok? ==> TurnRecorded(steps, i, st, answer, next.value))
  {
    var d := DecisionAt(steps, parse, i, st.artifacts, st.outcomes);
    if steps[i].conditional {
      OnFailureFiresOnFailure(parse, steps[i].when.value, steps[i].consumes, Preceding(steps, i), st.artifacts,
          st.outcomes);
    }
    assert d.Repair? <==> RepairsPrevious(steps, i);
    WatchedIsTargeted(steps, i);
  }

  lemma {:induction false} WatchedIsTargeted(steps: seq<LlmStep>, i: nat)
    requires i < |steps|
    ensures steps[i].name in FailureTargets(steps) <==> Watched(steps, i)
  {
    if steps[i].name in FailureTargets(steps) {
      var g :| 0 <= g < |steps| && WatchesFailure(steps[g]) && steps[g].when.value.target == steps[i].name;
      assert steps[g].conditional;
    }
  }

  /** When step `i` ran, its turn did not skip it. */
  lemma {:induction false} RanInTurn(steps: seq<LlmStep>, parse: Parser, answers: seq<Answer>, k: nat, i: nat)
    requires k <= |answers| <= |steps| && RunSteps(steps, parse, answers[..k]).Ok?
    requires i in RunSteps(steps, parse, answers[..k]).value.ran
    ensures i < k && RunSteps(steps, parse, answers[..i]).Ok?
    ensures TakesTurn(steps, parse, i, RunSteps(steps, parse, answers[..i]).value)
    ensures Advance(steps, parse, i, RunSteps(steps, parse, answers[..i]).value, answers[i]).Ok?
  {
    assert k > 0;
    assert answers[..k][..k - 1] == answers[..k - 1];
    var st := RunSteps(steps, parse, answers[..k - 1]).value;
    AdvanceCases(steps, parse, k - 1, st, answers[k - 1]);
    if i in st.ran { RanInTurn(steps, parse, answers, k - 1, i); }
  }

  /** An error ends the run whatever would come after it. */
  lemma {:induction false} ErrorStands(steps: seq<LlmStep>, parse: Parser, answers: seq<Answer>, n: nat)
    requires n <= |answers| <= |steps| && RunSteps(steps, parse, answers[..n]).Err?
    ensures RunSteps(steps, parse, answers) == RunSteps(steps, parse, answers[..n])
    decreases |answers| - n
  {
    if n < |answers| {
      assert answers[..n + 1][..n] == answers[..n];
      ErrorStands(steps, parse, answers, n + 1);
    } else {
      assert answers[..n] == answers;
    }
  }

  /**
   * An exhausted budget, a cancellation or an unauthorised call of an executed step ends the run with that error,
   * whoever watches the step.
   */
  lemma {:induction false} TerminalFailureEndsRun(steps: seq<LlmStep>, parse: Parser, answers: seq<Answer>, i: nat)
    requires i < |answers| <= |steps| && RunSteps(steps, parse, answers[..i]).Ok?
    requires TakesTurn(steps, parse, i, RunSteps(steps, parse, answers[..i]).value)
    requires answers[i].Raised? && EndsEveryRun(answers[i].error)
    ensures RunSteps(steps, parse, answers) == Err(answers[i].error)
  {
    TurnExactly(steps, parse, i, RunSteps(steps, parse, answers[..i]).value, answers[i]);
    assert answers[..i + 1][..i] == answers[..i];
    ErrorStands(steps, parse, answers, i + 1);
  }

  /** Every failure of the steps that ran is one a run may go on after. */
  predicate OnlyTolerated(steps: seq<LlmStep>, ran: set<nat>, answers: seq<Answer>) {
    forall i :: i in ran && i < |answers| && i < |steps| && answers[i].Raised? ==>
      !EndsEveryRun(answers[i].error) && Watched(steps, i) && !RepairsPrevious(steps, i)
  }

  /** In a run that returns, every failed step was watched, was no repair, and failed in an ordinary way. */
  lemma {:induction false} ReturningRunTolerates(steps: seq<LlmStep>, parse: Parser, answers: seq<Answer>)
    requires |answers| <= |steps| && RunSteps(steps, parse, answers).Ok?
    ensures OnlyTolerated(steps, RunSteps(steps, parse, answers).value.ran, answers)
  {
    assert answers[..|answers|] == answers;
    var ran := RunSteps(steps, parse, answers).value.ran;
    forall i | i in ran && i < |answers| && answers[i].Raised?
      ensures !EndsEveryRun(answers[i].error) && Watched(steps, i) && !RepairsPrevious(steps, i)
    {
      RanInTurn(steps, parse, answers, |answers|, i);
      TurnExactly(steps, parse, i, RunSteps(steps, parse, answers[..i]).value, answers[i]);
    }
  }
}
