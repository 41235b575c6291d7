/**
 * How one component's steps execute, whatever the model answers
 * (dispatcher/claude-agent-sdk/src/componentInvocation.ts, the loop of `executeComponent`),
 * and what the compiler's step checks guarantee about every such execution.
 */
module StepExecution {
  import opened JsObject
  import opened Prelude
  import opened Profile
  import opened Conditional
  import opened StepChecks

  /** The message prefixes the runtime looks at. */
  datatype Prefix = BudgetExhausted | Cancelled | UnauthorizedCall | OtherPrefix

  /** A thrown `DispatchError`, its subclass for a failed step, or any other exception. */
  datatype Thrown = Dispatch(prefix: Prefix) | StepError(prefix: Prefix, retryable: bool) | Foreign

  /** `/^(?:budget_exhausted|cancelled|unauthorized_call):/`: never tolerated. */
  predicate Terminal(error: Thrown) {
    !error.Foreign? && !error.prefix.OtherPrefix?
  }

  /** The end of one attempt at a step: its text, or the error raised and its bounded message. */
  datatype Answer = Answered(text: string) | Raised(error: Thrown, message: string)

  function AnswerText(answer: Answer): string {
    match answer case Answered(text) => text case Raised(_, message) => message
  }

  function AnswerOutcome(answer: Answer): StepOutcome {
    if answer.Answered? then Success else Failure
  }

  /** `execute` rethrows unless the failure may be recorded. */
  predicate Rethrown(answer: Answer, tolerant: bool) {
    answer.Raised? && (!tolerant || Terminal(answer.error))
  }

  /**
   * The executor's variables, the two tables by their stored keys, with the history the guarantees speak about:
   * which steps ran, which step last wrote each artifact key, and which step supplied the final text.
   */
  datatype ExecState = ExecState(
    artifacts: map<string, string>,
    outcomes: map<string, StepOutcome>,
    finalText: string,
    ran: set<nat>,
    writer: map<string, nat>,
    finalFrom: Option<nat>)

  const INITIAL := ExecState(map[], map[], "", {}, map[], None)

  /** `step.produces ?? step.name`. */
  function ArtifactKey(step: LlmStep): string {
    match step.produces case Some(x) => x case None => step.name
  }

  /** The names some conditional step watches with `on_failure`. */
  function FailureTargets(steps: seq<LlmStep>): set<string> {
    set i | 0 <= i < |steps| && WatchesFailure(steps[i]) :: steps[i].when.value.target
  }

  predicate WatchesFailure(step: LlmStep) {
    step.conditional && step.when.Some? && step.when.value.guard.OnFailure?
  }

  function Preceding(steps: seq<LlmStep>, i: nat): Option<StepIdentity>
    requires i < |steps|
  {
    if i == 0 then None else Some(StepIdentity(steps[i - 1].name, steps[i - 1].produces))
  }

  /** `outcomes[..] = ..; artifacts[..] = ..; if success, finalText = ..`. */
  function Recorded(steps: seq<LlmStep>, i: nat, st: ExecState, answer: Answer): ExecState
    requires i < |steps|
  {
    var key := ArtifactKey(steps[i]);
    ExecState(
      Put(st.artifacts, key, AnswerText(answer)),
      Put(st.outcomes, steps[i].name, AnswerOutcome(answer)),
      if answer.Answered? then answer.text else st.finalText,
      st.ran + {i},
      Put(st.writer, key, i),
      if answer.Answered? then Some(i) else st.finalFrom)
  }

  /** Run for an unconditional step; a conditional step without a guard is an error, like an unknown one. */
  function DecisionAt(steps: seq<LlmStep>, parse: Parser, i: nat, artifacts: map<string, string>,
                      outcomes: map<string, StepOutcome>)
    : Decision
    requires i < |steps|
  {
    if !steps[i].conditional then Run
    else if steps[i].when.None? then UnknownGuard
    else ClassifyConditionalStep(parse, steps[i].when.value, steps[i].consumes, Preceding(steps, i), artifacts,
        outcomes)
  }

  /**
   * The error of a repair that did not recover. It quotes the target's artifact, and quoting an inherited member,
   * which is not a string, is itself an exception.
   */
  function Unrecovered(steps: seq<LlmStep>, i: nat, artifacts: map<string, string>): Thrown
    requires i < |steps|
  {
    if i > 0 && Get(artifacts, ArtifactKey(steps[i - 1])).Inherited? then Foreign else Dispatch(OtherPrefix)
  }

  /** One turn of the loop. A repair gets one attempt, the runtime's bound, and must recover. */
  function Advance(steps: seq<LlmStep>, parse: Parser, i: nat, st: ExecState, answer: Answer): Result<ExecState, Thrown>
    requires i < |steps|
  {
    match DecisionAt(steps, parse, i, st.artifacts, st.outcomes)
    case Skip => Ok(st)
    case UnknownGuard => Err(Dispatch(OtherPrefix))
    case Repair(_) =>
      if Rethrown(answer, true) then Err(answer.error)
      else if answer.Raised? then Err(Unrecovered(steps, i, Recorded(steps, i, st, answer).artifacts))
      else Ok(Recorded(steps, i, st, answer))
    case Run =>
      if Rethrown(answer, steps[i].name in FailureTargets(steps)) then Err(answer.error)
      else Ok(Recorded(steps, i, st, answer))
  }

  /** The loop after as many steps as there are answers; a skipped step's answer is never asked for. */
  function RunSteps(steps: seq<LlmStep>, parse: Parser, answers: seq<Answer>): Result<ExecState, Thrown>
    requires |answers| <= |steps|
  {
    if answers == [] then Ok(INITIAL)
    else
      var n := |answers| - 1;
      match RunSteps(steps, parse, answers[..n])
      case Err(e) => Err(e)
      case Ok(st) => Advance(steps, parse, n, st, answers[n])
  }

  // ---- the invariants of every run -----------------------------------------------------------

  predicate Accepted(steps: seq<LlmStep>) { GuardsOk(steps) && DataflowOk(steps) }

  /** Step `g` is guarded `on_failure` on step `f`. */
  predicate Watches(steps: seq<LlmStep>, g: nat, f: nat)
    requires g < |steps| && f < |steps|
  {
    WatchesFailure(steps[g]) && steps[g].when.value.target == steps[f].name
  }

  lemma {:induction false} WatchedIsEarlier(steps: seq<LlmStep>, g: nat, f: nat)
    requires DataflowOk(steps) && g < |steps| && f < |steps| && Watches(steps, g, f)
    ensures f < g
  {
    assert StepFlowOk(steps, g);
    var j :| 0 <= j < g && steps[j].name == steps[g].when.value.target;
    NamesUnique(steps, j, f);
  }

  /** The recorded outcomes are those of the steps that ran, except that nothing is recorded under `__proto__`. */
  ghost predicate OutcomesMatch(steps: seq<LlmStep>, n: nat, st: ExecState, answers: seq<Answer>)
    requires n <= |steps| && n <= |answers|
  {
    && (forall i :: i in st.ran ==> i < n)
    && PROTO !in st.outcomes
    && (forall i :: i in st.ran && steps[i].name != PROTO ==>
          steps[i].name in st.outcomes && st.outcomes[steps[i].name] == AnswerOutcome(answers[i]))
    && (forall x :: x in st.outcomes ==> exists i :: i in st.ran && steps[i].name == x)
  }

  /** Step `f` ran and failed, and its failure could be recorded. */
  predicate FailureSeen(steps: seq<LlmStep>, ran: set<nat>, answers: seq<Answer>, f: nat)
    requires f < |steps| && f < |answers|
  {
    f in ran && answers[f].Raised? && steps[f].name != PROTO
  }

  /** Unconditional steps ran; a watching step ran exactly when its target was seen to fail; failures are watched. */
  ghost predicate GuardsRespected(steps: seq<LlmStep>, n: nat, ran: set<nat>, answers: seq<Answer>)
    requires n <= |steps| && n <= |answers|
  {
    && (forall i :: 0 <= i < n && i !in ran ==> steps[i].conditional)
    && (forall i :: i in ran && i < n && answers[i].Raised? ==> steps[i].name in FailureTargets(steps))
    && (forall g: nat, f: nat :: f < g < n && Watches(steps, g, f) ==>
        (g in ran <==> FailureSeen(steps, ran, answers, f)))
  }

  /** The final text is the answer of the last step that succeeded. */
  ghost predicate FinalIsLastSuccess(st: ExecState, answers: seq<Answer>) {
    match st.finalFrom
    case None => st.finalText == "" && forall i :: i in st.ran && i < |answers| ==> answers[i].Raised?
    case Some(s) => s in st.ran && s < |answers| && answers[s] == Answered(st.finalText)
                    && forall i :: i in st.ran && i < |answers| && answers[i].Answered? ==> i <= s
  }

  /** Once outcomes match, a recorded failure is a failure of a step whose name can be recorded. */
  lemma {:induction false} FailedMeansRaised(steps: seq<LlmStep>, n: nat, st: ExecState, answers: seq<Answer>, f: nat)
    requires DataflowOk(steps) && n <= |steps| && n <= |answers| && OutcomesMatch(steps, n, st, answers)
    requires f < |steps| && f < |answers|
    ensures steps[f].name in st.outcomes <==> f in st.ran && steps[f].name != PROTO
    ensures Failed(st.outcomes, steps[f].name) <==> FailureSeen(steps, st.ran, answers, f)
  {
    if steps[f].name in st.outcomes {
      var i :| i in st.ran && steps[i].name == steps[f].name;
      NamesUnique(steps, i, f);
    }
  }

  lemma {:induction false} RecordKeepsOutcomes(steps: seq<LlmStep>, n: nat, st: ExecState, answers: seq<Answer>)
    requires DataflowOk(steps) && n < |steps| && n < |answers| && OutcomesMatch(steps, n, st, answers)
    ensures OutcomesMatch(steps, n + 1, Recorded(steps, n, st, answers[n]), answers)
  {
    var st' := Recorded(steps, n, st, answers[n]);
    forall i | i in st.ran ensures steps[i].name != steps[n].name { NamesUnique(steps, i, n); }
    forall x | x in st'.outcomes ensures exists i :: i in st'.ran && steps[i].name == x {
      StoredIsRead(st.outcomes, steps[n].name, AnswerOutcome(answers[n]), x);
      if x == steps[n].name && x != PROTO {
        assert n in st'.ran;
      } else {
        var i :| i in st.ran && steps[i].name == x;
        assert i in st'.ran;
      }
    }
  }

  lemma {:induction false} RecordKeepsFinal(steps: seq<LlmStep>, n: nat, st: ExecState, answers: seq<Answer>)
    requires n < |steps| && n < |answers| && FinalIsLastSuccess(st, answers) && forall i :: i in st.ran ==> i < n
    ensures FinalIsLastSuccess(Recorded(steps, n, st, answers[n]), answers)
  {
  }

  /** A watching step runs exactly when the step it watches was seen to fail. */
  lemma {:induction false} WatcherDecides(steps: seq<LlmStep>, parse: Parser, n: nat, st: ExecState,
                                          answers: seq<Answer>, f: nat)
    requires Accepted(steps) && f < n < |steps| && n < |answers| && OutcomesMatch(steps, n, st, answers)
    requires Watches(steps, n, f) && Advance(steps, parse, n, st, answers[n]).Ok?
    ensures n in Advance(steps, parse, n, st, answers[n]).value.ran <==> FailureSeen(steps, st.ran, answers, f)
  {
    OnFailureFiresOnFailure(parse, steps[n].when.value, steps[n].consumes, Preceding(steps, n), st.artifacts,
        st.outcomes);
    FailedMeansRaised(steps, n, st, answers, f);
  }

  lemma {:induction false} AdvanceKeepsGuards(steps: seq<LlmStep>, parse: Parser, n: nat, st: ExecState,
                                              answers: seq<Answer>)
    requires Accepted(steps) && n < |steps| && n < |answers|
    requires OutcomesMatch(steps, n, st, answers) && GuardsRespected(steps, n, st.ran, answers)
    requires Advance(steps, parse, n, st, answers[n]).Ok?
    ensures GuardsRespected(steps, n + 1, Advance(steps, parse, n, st, answers[n]).value.ran, answers)
  {
    var st' := Advance(steps, parse, n, st, answers[n]).value;
    AdvanceAtStep(steps, parse, n, st, answers[n]);
    forall f: nat | f < n && Watches(steps, n, f) ensures n in st'.ran <==> FailureSeen(steps, st.ran, answers, f) {
      WatcherDecides(steps, parse, n, st, answers, f);
    }
    GuardsExtend(steps, n, st.ran, st'.ran, answers);
  }

  lemma {:induction false} GuardsExtend(steps: seq<LlmStep>, n: nat, ran: set<nat>, ran': set<nat>,
                                        answers: seq<Answer>)
    requires n < |steps| && n < |answers| && GuardsRespected(steps, n, ran, answers) && n !in ran
    requires ran' == ran || ran' == ran + {n}
    requires n !in ran' ==> steps[n].conditional
    requires n in ran' && answers[n].Raised? ==> steps[n].name in FailureTargets(steps)
    requires forall f: nat :: f < n && Watches(steps, n, f) ==> (n in ran' <==> FailureSeen(steps, ran, answers, f))
    ensures GuardsRespected(steps, n + 1, ran', answers)
  {
  }

  /** A turn that does not throw either skips or records its answer. */
  lemma {:induction false} AdvanceCases(steps: seq<LlmStep>, parse: Parser, n: nat, st: ExecState, answer: Answer)
    requires n < |steps| && Advance(steps, parse, n, st, answer).Ok?
    ensures var st' := Advance(steps, parse, n, st, answer).value; st' == st || st' == Recorded(steps, n, st, answer)
  {
  }

  /** What one turn can do to the set of steps that ran. */
  lemma {:induction false} AdvanceAtStep(steps: seq<LlmStep>, parse: Parser, n: nat, st: ExecState, answer: Answer)
    requires GuardsOk(steps) && n < |steps| && n !in st.ran && Advance(steps, parse, n, st, answer).Ok?
    ensures var st' := Advance(steps, parse, n, st, answer).value;
            && (st'.ran == st.ran || st'.ran == st.ran + {n})
            && (n !in st'.ran ==> steps[n].conditional)
            && (n in st'.ran && answer.Raised? ==> steps[n].name in FailureTargets(steps))
  {
    assert StepGuardOk(steps[n]);
  }

  ghost predicate RunInvariant(steps: seq<LlmStep>, n: nat, st: ExecState, answers: seq<Answer>)
    requires n <= |steps| && n <= |answers|
  {
    OutcomesMatch(steps, n, st, answers) && GuardsRespected(steps, n, st.ran, answers)
        && FinalIsLastSuccess(st, answers)
  }

  lemma {:induction false} AdvanceKeepsInvariant(steps: seq<LlmStep>, parse: Parser, n: nat, st: ExecState,
                                                 answers: seq<Answer>)
    requires Accepted(steps) && n < |steps| && n < |answers| && RunInvariant(steps, n, st, answers)
    requires Advance(steps, parse, n, st, answers[n]).Ok?
    ensures RunInvariant(steps, n + 1, Advance(steps, parse, n, st, answers[n]).value, answers)
  {
    var st' := Advance(steps, parse, n, st, answers[n]).value;
    AdvanceCases(steps, parse, n, st, answers[n]);
    RecordKeepsOutcomes(steps, n, st, answers);
    RecordKeepsFinal(steps, n, st, answers);
    AdvanceKeepsGuards(steps, parse, n, st, answers);
  }

  /** Every run of an accepted component keeps all three, at every step of the loop. */
  lemma {:induction false} RunKeepsInvariant(steps: seq<LlmStep>, parse: Parser, answers: seq<Answer>, n: nat)
    requires Accepted(steps) && n <= |answers| <= |steps| && RunSteps(steps, parse, answers[..n]).Ok?
    ensures RunInvariant(steps, n, RunSteps(steps, parse, answers[..n]).value, answers)
  {
    if n > 0 {
      assert answers[..n][..n - 1] == answers[..n - 1];
      RunKeepsInvariant(steps, parse, answers, n - 1);
      AdvanceKeepsInvariant(steps, parse, n - 1, RunSteps(steps, parse, answers[..n - 1]).value, answers);
    }
  }

  // ---- no failure is swallowed ---------------------------------------------------------------

  /** `g` ran because `f` failed. */
  predicate Handles(steps: seq<LlmStep>, st: ExecState, answers: seq<Answer>, f: nat, g: nat)
    requires |answers| == |steps|
  {
    f < g < |steps| && Watches(steps, g, f) && f in st.ran && g in st.ran && answers[f].Raised?
  }

  /** From a failed step, each next step handles the one before it, and the last one succeeded. */
  predicate RecoveryChain(steps: seq<LlmStep>, st: ExecState, answers: seq<Answer>, f: nat, chain: seq<nat>)
    requires |answers| == |steps|
    decreases |chain|
  {
    && chain != [] && Handles(steps, st, answers, f, chain[0])
    && if |chain| == 1 then answers[chain[0]].Answered? else RecoveryChain(steps, st, answers, chain[0], chain[1..])
  }

  /** No step that ran under the name `__proto__` failed: every failure was recorded. */
  predicate EveryFailureSeen(steps: seq<LlmStep>, ran: set<nat>, answers: seq<Answer>)
    requires |answers| == |steps|
  {
    forall f: nat :: f < |steps| && f in ran && answers[f].Raised? ==> FailureSeen(steps, ran, answers, f)
  }

  lemma {:induction false} FailureIsRecovered(steps: seq<LlmStep>, st: ExecState, answers: seq<Answer>, f: nat)
    returns (chain: seq<nat>, last: nat)
    requires DataflowOk(steps) && |answers| == |steps|
    requires OutcomesMatch(steps, |steps|, st, answers) && GuardsRespected(steps, |steps|, st.ran, answers)
    requires EveryFailureSeen(steps, st.ran, answers)
    requires f < |steps| && f in st.ran && answers[f].Raised?
    ensures RecoveryChain(steps, st, answers, f, chain)
    ensures f < last < |steps| && last in st.ran && answers[last].Answered?
    decreases |steps| - f
  {
    var g: nat :| g < |steps| && WatchesFailure(steps[g]) && steps[g].when.value.target == steps[f].name;
    assert Watches(steps, g, f);
    WatchedIsEarlier(steps, g, f);
    if answers[g].Answered? {
      chain, last := [g], g;
    } else {
      var rest, l := FailureIsRecovered(steps, st, answers, g);
      chain, last := [g] + rest, l;
      assert chain[1..] == rest;
    }
  }

  /**
   * Every step guarded on the failed step `f` ran, `f` was followed by a chain of such steps ending in a
   * success, and the step whose text is returned comes strictly after `f`.
   */
  ghost predicate Handled(steps: seq<LlmStep>, st: ExecState, answers: seq<Answer>, f: nat)
    requires |answers| == |steps| && f < |steps|
  {
    && (forall g: nat :: g < |steps| && Watches(steps, g, f) ==> f < g && g in st.ran)
    && (exists chain :: RecoveryChain(steps, st, answers, f, chain))
    && st.finalFrom.Some? && f < st.finalFrom.value < |steps|
    && answers[st.finalFrom.value] == Answered(st.finalText)
  }

  ghost predicate AllHandled(steps: seq<LlmStep>, st: ExecState, answers: seq<Answer>)
    requires |answers| == |steps|
  {
    forall f: nat :: f < |steps| && f in st.ran && answers[f].Raised? ==> Handled(steps, st, answers, f)
  }

  lemma {:induction false} SeenFailureHandled(steps: seq<LlmStep>, st: ExecState, answers: seq<Answer>, f: nat)
    requires DataflowOk(steps) && |answers| == |steps| && RunInvariant(steps, |steps|, st, answers)
    requires EveryFailureSeen(steps, st.ran, answers)
    requires f < |steps| && f in st.ran && answers[f].Raised?
    ensures Handled(steps, st, answers, f)
  {
    forall g: nat | g < |steps| && Watches(steps, g, f) ensures f < g && g in st.ran {
      WatchedIsEarlier(steps, g, f);
    }
    var chain, last := FailureIsRecovered(steps, st, answers, f);
  }

  /** A failure that cannot be recorded is never handled: no step that watches it runs. */
  lemma {:induction false} UnseenFailureSwallowed(steps: seq<LlmStep>, st: ExecState, answers: seq<Answer>, f: nat)
    requires DataflowOk(steps) && |answers| == |steps| && GuardsRespected(steps, |steps|, st.ran, answers)
    requires f < |steps| && steps[f].name == PROTO
    ensures forall g: nat :: g < |steps| && Watches(steps, g, f) ==> g !in st.ran
    ensures !Handled(steps, st, answers, f)
  {
    forall g: nat | g < |steps| && Watches(steps, g, f) ensures g !in st.ran {
      WatchedIsEarlier(steps, g, f);
    }
    forall chain ensures !RecoveryChain(steps, st, answers, f, chain) {
    }
  }

  /**
   * For steps the compiler accepted, when the executor returns: every failed step was handled if and only if no
   * step named `__proto__` failed.
   */
  lemma {:induction false} NoSwallowedFailure(steps: seq<LlmStep>, parse: Parser, answers: seq<Answer>)
    requires Accepted(steps) && |answers| == |steps| && RunSteps(steps, parse, answers).Ok?
    ensures var st := RunSteps(steps, parse, answers).value;
            AllHandled(steps, st, answers) <==> EveryFailureSeen(steps, st.ran, answers)
  {
    var st := RunSteps(steps, parse, answers).value;
    assert answers[..|answers|] == answers;
    RunKeepsInvariant(steps, parse, answers, |answers|);
    if EveryFailureSeen(steps, st.ran, answers) {
      forall f: nat | f < |steps| && f in st.ran && answers[f].Raised? ensures Handled(steps, st, answers, f) {
        SeenFailureHandled(steps, st, answers, f);
      }
    }
    forall f: nat | f < |steps| && f in st.ran && answers[f].Raised? && steps[f].name == PROTO
      ensures !Handled(steps, st, answers, f)
    {
      UnseenFailureSwallowed(steps, st, answers, f);
    }
  }

  /** A failure nothing watches ends the run: the executor does not return. */
  lemma {:induction false} UnwatchedFailureThrows(steps: seq<LlmStep>, parse: Parser, answers: seq<Answer>, f: nat)
    requires Accepted(steps) && |answers| == |steps| && f < |steps|
    requires !steps[f].conditional && answers[f].Raised? && steps[f].name !in FailureTargets(steps)
    ensures RunSteps(steps, parse, answers).Err?
  {
    assert answers[..|answers|] == answers;
    if RunSteps(steps, parse, answers).Ok? { RunKeepsInvariant(steps, parse, answers, |answers|); }
  }

  // ---- what a step consumes ------------------------------------------------------------------

  /** Step `i` declares no artifact, so its output lands under its own name, and that name is `x`. */
  predicate Shadows(steps: seq<LlmStep>, i: nat, x: string)
    requires i < |steps|
  {
    steps[i].produces.None? && steps[i].name == x
  }

  /** No step without `produces` is named like a produced artifact. */
  predicate KeysKeptApart(steps: seq<LlmStep>) {
    forall i, j :: 0 <= i < |steps| && 0 <= j < |steps| && steps[j].produces.Some? ==>
        !Shadows(steps, i, steps[j].produces.value)
  }

  /** Each key was last written by the latest step that ran and writes it. */
  ghost predicate WritersMatch(steps: seq<LlmStep>, n: nat, st: ExecState, answers: seq<Answer>)
    requires n <= |steps| && n <= |answers|
  {
    && (forall x :: x in st.artifacts <==> x in st.writer) && PROTO !in st.artifacts
    && (forall x :: x in st.writer ==>
          && st.writer[x] in st.ran && st.writer[x] < n
          && ArtifactKey(steps[st.writer[x]]) == x && st.artifacts[x] == AnswerText(answers[st.writer[x]]))
    && (forall i :: i in st.ran ==> i < n)
    && (forall i :: i in st.ran && ArtifactKey(steps[i]) != PROTO ==>
          ArtifactKey(steps[i]) in st.writer && i <= st.writer[ArtifactKey(steps[i])])
  }

  lemma {:induction false} RecordKeepsWriters(steps: seq<LlmStep>, n: nat, st: ExecState, answers: seq<Answer>)
    requires n < |steps| && n < |answers| && WritersMatch(steps, n, st, answers)
    ensures WritersMatch(steps, n + 1, Recorded(steps, n, st, answers[n]), answers)
  {
    var st', key := Recorded(steps, n, st, answers[n]), ArtifactKey(steps[n]);
    assert key == PROTO ==> st'.artifacts == st.artifacts && st'.writer == st.writer;
    assert key != PROTO ==> st'.artifacts == st.artifacts[key := AnswerText(answers[n])];
    assert key != PROTO ==> st'.writer == st.writer[key := n];
  }

  lemma {:induction false} RunKeepsWriters(steps: seq<LlmStep>, parse: Parser, answers: seq<Answer>, n: nat)
    requires n <= |answers| <= |steps| && RunSteps(steps, parse, answers[..n]).Ok?
    ensures WritersMatch(steps, n, RunSteps(steps, parse, answers[..n]).value, answers)
  {
    if n > 0 {
      assert answers[..n][..n - 1] == answers[..n - 1];
      RunKeepsWriters(steps, parse, answers, n - 1);
      var st := RunSteps(steps, parse, answers[..n - 1]).value;
      var st' := RunSteps(steps, parse, answers[..n]).value;
      AdvanceCases(steps, parse, n - 1, st, answers[n - 1]);
      RecordKeepsWriters(steps, n - 1, st, answers);
    }
  }

  predicate LastWrittenBy(st: ExecState, x: string, p: nat) {
    x in st.artifacts && x in st.writer && st.writer[x] == p
  }

  /** `p` is the one step that produces `x`, and it comes strictly before `k`. */
  predicate SoleProducer(steps: seq<LlmStep>, k: nat, x: string, p: nat) {
    && p < k && p < |steps| && steps[p].produces == Some(x)
    && forall j :: 0 <= j < |steps| && steps[j].produces == Some(x) ==> j == p
  }

  lemma {:induction false} ConsumedHasProducer(steps: seq<LlmStep>, k: nat, x: string) returns (p: nat)
    requires DataflowOk(steps) && k < |steps| && x in steps[k].consumes
    ensures SoleProducer(steps, k, x, p)
  {
    assert StepFlowOk(steps, k);
    var c :| 0 <= c < |steps[k].consumes| && steps[k].consumes[c] == x;
    p :| 0 <= p < k && steps[p].produces == Some(x);
    forall j | 0 <= j < |steps| && steps[j].produces == Some(x) ensures j == p { NamesUnique(steps, j, p); }
  }

  /** No step between `p` and `k` that ran filed its output under `x` as its own name. */
  predicate Unshadowed(steps: seq<LlmStep>, ran: set<nat>, p: nat, k: nat, x: string)
    requires k <= |steps|
  {
    forall i :: p < i < k && Shadows(steps, i, x) ==> i !in ran
  }

  lemma {:induction false} WriterExact(steps: seq<LlmStep>, k: nat, st: ExecState, answers: seq<Answer>, x: string,
                                       p: nat)
    requires k <= |steps| && k <= |answers| && WritersMatch(steps, k, st, answers) && SoleProducer(steps, k, x, p)
    ensures LastWrittenBy(st, x, p) <==> x != PROTO && p in st.ran && Unshadowed(steps, st.ran, p, k, x)
    ensures x in st.writer && st.writer[x] != p ==> Shadows(steps, st.writer[x], x)
  {
    if x in st.writer && st.writer[x] != p {
      assert ArtifactKey(steps[st.writer[x]]) == x;
      assert Shadows(steps, st.writer[x], x);
    }
    forall i | p < i < k && Shadows(steps, i, x) && i in st.ran ensures !LastWrittenBy(st, x, p) {
      assert ArtifactKey(steps[i]) == x;
    }
    if p in st.ran { assert ArtifactKey(steps[p]) == x; }
  }

  /**
   * Exactly when a consumed artifact is what its producer wrote. When an accepted step `k` is reached and
   * consumes `x`, a unique strictly earlier step `p` produces it; `x` holds that step's text if and only if `p`
   * ran, `x` is not `__proto__`, and no later step that ran borrowed the key `x` as its name.
   */
  lemma {:induction false} ConsumedArtifactExact(steps: seq<LlmStep>, parse: Parser, answers: seq<Answer>, k: nat,
                                                 x: string)
    returns (p: nat)
    requires Accepted(steps) && k < |answers| <= |steps| && RunSteps(steps, parse, answers[..k]).Ok?
    requires x in steps[k].consumes
    ensures SoleProducer(steps, k, x, p)
    ensures var st := RunSteps(steps, parse, answers[..k]).value;
            && (p !in st.ran ==> steps[p].conditional)
            && (LastWrittenBy(st, x, p) <==> x != PROTO && p in st.ran && Unshadowed(steps, st.ran, p, k, x))
            && (LastWrittenBy(st, x, p) ==> Get(st.artifacts, x) == Own(AnswerText(answers[p])))
  {
    p := ConsumedHasProducer(steps, k, x);
    RunKeepsInvariant(steps, parse, answers, k);
    RunKeepsWriters(steps, parse, answers, k);
    WriterExact(steps, k, RunSteps(steps, parse, answers[..k]).value, answers, x, p);
  }

  /**
   * With the two name spaces kept apart, a consumed artifact has a unique strictly earlier producer. If that
   * step ran, its text is what the consumer reads if and only if the artifact is not named `__proto__`. If it
   * did not run it is conditional, and the consumer finds nothing if and only if the artifact is not named like
   * an inherited member.
   */
  lemma {:induction false} DataflowIsSound(steps: seq<LlmStep>, parse: Parser, answers: seq<Answer>, k: nat, x: string)
    returns (p: nat)
    requires Accepted(steps) && KeysKeptApart(steps)
    requires k < |answers| <= |steps| && RunSteps(steps, parse, answers[..k]).Ok? && x in steps[k].consumes
    ensures SoleProducer(steps, k, x, p)
    ensures var st := RunSteps(steps, parse, answers[..k]).value;
            && (p in st.ran ==> (Get(st.artifacts, x) == Own(AnswerText(answers[p])) <==> x != PROTO)
                                && (LastWrittenBy(st, x, p) <==> x != PROTO))
            && (p !in st.ran ==> steps[p].conditional && x !in st.artifacts
                                 && (Get(st.artifacts, x) == Undefined <==> !InheritedName(x)))
  {
    p := ConsumedArtifactExact(steps, parse, answers, k, x);
    RunKeepsWriters(steps, parse, answers, k);
    var st := RunSteps(steps, parse, answers[..k]).value;
    WriterExact(steps, k, st, answers, x, p);
    if x in st.writer { assert st.writer[x] in st.ran; }
    assert forall i :: 0 <= i < |steps| ==> !Shadows(steps, i, x);
  }

  /**
   * Without that hypothesis it is false: an unconditional step named like the artifact,
   * between its producer and its consumer, replaces it in every run that reaches the consumer.
   */
  lemma {:induction false} ShadowReplacesArtifact(steps: seq<LlmStep>, parse: Parser, answers: seq<Answer>, p: nat,
                                                  i: nat, k: nat, x: string)
    requires Accepted(steps) && p < i < k < |answers| <= |steps| && RunSteps(steps, parse, answers[..k]).Ok?
    requires steps[p].produces == Some(x) && x in steps[k].consumes
    requires Shadows(steps, i, x) && !steps[i].conditional && x != PROTO
    ensures var st := RunSteps(steps, parse, answers[..k]).value; x in st.writer && st.writer[x] != p
  {
    RunKeepsInvariant(steps, parse, answers, k);
    RunKeepsWriters(steps, parse, answers, k);
    assert ArtifactKey(steps[i]) == x;
  }

  /** Such a component exists: both checks accept it, and its third step reads the wrong text. */
  lemma {:induction false} ShadowExample() returns (steps: seq<LlmStep>, answers: seq<Answer>, parse: Parser)
    ensures Accepted(steps) && !KeysKeptApart(steps) && |steps| == |answers| == 3
    ensures steps[0].produces == Some("report") && "report" in steps[2].consumes
    ensures RunSteps(steps, parse, answers[..2]).Ok?
    ensures answers[0] == Answered("the report")
    ensures var artifacts := RunSteps(steps, parse, answers[..2]).value.artifacts;
            "report" in artifacts && artifacts["report"] != "the report"
  {
    var write := LlmStep("write", [], Some("report"), false, None, []);
    var shadow := LlmStep("report", [], None, false, None, []);
    var read := LlmStep("read", ["report"], None, false, None, []);
    steps := [write, shadow, read];
    answers := [Answered("the report"), Answered("chatter"), Answered("done")];
    parse := (_: string) => None;
    assert StepFlowOk(steps, 2) by { assert steps[0].produces == Some("report"); }
    assert Shadows(steps, 1, steps[0].produces.value);
    assert answers[..2][..1] == answers[..1] && answers[..1][..0] == [];
    assert RunSteps(steps, parse, answers[..1]) == Advance(steps, parse, 0, INITIAL, answers[0]);
    var st1 := RunSteps(steps, parse, answers[..1]).value;
    assert RunSteps(steps, parse, answers[..2]) == Advance(steps, parse, 1, st1, answers[1]);
    assert RunSteps(steps, parse, answers[..2]).value.artifacts["report"] == "chatter";
    assert "chatter"[0] != "the report"[0];
  }

  // ---- names the tables cannot hold ----------------------------------------------------------

  /**
   * A step named `__proto__` that fails while another watches it: the watcher is skipped and the executor
   * returns normally, although both checks accept the component and no key is shared.
   */
  lemma {:induction false} SwallowedFailureExample() returns (steps: seq<LlmStep>, answers: seq<Answer>, parse: Parser)
    ensures Accepted(steps) && KeysKeptApart(steps) && |steps| == |answers| == 2
    ensures steps[0].name == PROTO && Watches(steps, 1, 0) && answers[0].Raised?
    ensures RunSteps(steps, parse, answers).Ok?
    ensures var st := RunSteps(steps, parse, answers).value;
            st.ran == {0} && st.outcomes == map[] && !AllHandled(steps, st, answers)
  {
    var lost := LlmStep(PROTO, [], None, false, None, []);
    var fix := LlmStep("fix", [], None, true, Some(WhenGuard(OnFailure, PROTO)), []);
    steps := [lost, fix];
    answers := [Raised(Dispatch(OtherPrefix), ""), Answered("fixed")];
    parse := (_: string) => None;
    assert PROTO[0] == '_' && "fix"[0] == 'f' && '_' in PROTO;
    assert StepFlowOk(steps, 1) by { assert steps[0].name == PROTO; }
    assert WatchesFailure(steps[1]);
    assert answers[..2] == answers && answers[..2][..1] == answers[..1] && answers[..1][..0] == [];
    assert PROTO in FailureTargets(steps);
    assert RunSteps(steps, parse, answers[..1]) == Advance(steps, parse, 0, INITIAL, answers[0]);
    var st1 := RunSteps(steps, parse, answers[..1]).value;
    assert RunSteps(steps, parse, answers[..2]) == Advance(steps, parse, 1, st1, answers[1]);
    NoSwallowedFailure(steps, parse, answers);
    assert !FailureSeen(steps, {0}, answers, 0);
  }

  /** An artifact named `__proto__`: its producer runs, and its consumer reads an inherited object. */
  lemma {:induction false} LostArtifactExample() returns (steps: seq<LlmStep>, answers: seq<Answer>, parse: Parser)
    ensures Accepted(steps) && KeysKeptApart(steps) && |steps| == |answers| == 2
    ensures steps[0].produces == Some(PROTO) && PROTO in steps[1].consumes
    ensures RunSteps(steps, parse, answers[..1]).Ok?
    ensures var st := RunSteps(steps, parse, answers[..1]).value; st.ran == {0} && Get(st.artifacts, PROTO) == Inherited
  {
    var write := LlmStep("write", [], Some(PROTO), false, None, []);
    var read := LlmStep("read", [PROTO], None, false, None, []);
    steps := [write, read];
    answers := [Answered("text"), Answered("done")];
    parse := (_: string) => None;
    assert "write"[0] == 'w' && "read"[0] == 'r' && PROTO[0] == '_';
    assert StepFlowOk(steps, 1) by { assert steps[0].produces == Some(PROTO); }
    assert answers[..1][..0] == [];
    assert RunSteps(steps, parse, answers[..1]) == Advance(steps, parse, 0, INITIAL, answers[0]);
  }

  const INHERITED_STEPS: seq<LlmStep> := [
    LlmStep("first", [], None, false, None, []),
    LlmStep("write", [], Some("constructor"), true, Some(WhenGuard(OnFailure, "first")), []),
    LlmStep("read", ["constructor"], None, true, Some(WhenGuard(OnMissing, "constructor")), [])
  ]

  lemma {:induction false} InheritedGuardsOk()
    ensures GuardsOk(INHERITED_STEPS) && KeysKeptApart(INHERITED_STEPS)
  {
    assert "first"[0] == 'f' && "read"[0] == 'r' && "constructor"[0] == 'c';
    assert 'f' in "first" && 'c' in "constructor";
  }

  lemma {:induction false} InheritedStepsAccepted()
    ensures Accepted(INHERITED_STEPS) && KeysKeptApart(INHERITED_STEPS)
  {
    var steps := INHERITED_STEPS;
    InheritedGuardsOk();
    assert "first"[0] == 'f' && "write"[0] == 'w' && "read"[0] == 'r';
    assert StepFlowOk(steps, 1) by { assert steps[0].name == "first"; }
    assert StepFlowOk(steps, 2) by { assert steps[1].produces == Some("constructor"); }
  }

  /**
   * An artifact named like an inherited member: its conditional producer is skipped, its consumer would read the
   * inherited function, and the consumer, a fallback for the artifact being missing, is skipped too.
   */
  lemma {:induction false} InheritedArtifactExample() returns (answers: seq<Answer>, parse: Parser)
    ensures Accepted(INHERITED_STEPS) && KeysKeptApart(INHERITED_STEPS) && |answers| == 3
    ensures RunSteps(INHERITED_STEPS, parse, answers).Ok?
    ensures var st := RunSteps(INHERITED_STEPS, parse, answers).value;
            st.ran == {0} && "constructor" !in st.artifacts && Get(st.artifacts, "constructor") == Inherited
  {
    InheritedStepsAccepted();
    var steps := INHERITED_STEPS;
    answers := [Answered("a"), Answered("b"), Answered("c")];
    parse := (_: string) => None;
    assert "first"[0] == 'f' && "constructor"[0] == 'c' && PROTO[0] == '_';
    assert answers[..3] == answers && answers[..3][..2] == answers[..2];
    assert answers[..2][..1] == answers[..1] && answers[..1][..0] == [];
    assert RunSteps(steps, parse, answers[..1]) == Advance(steps, parse, 0, INITIAL, answers[0]);
    var st1 := RunSteps(steps, parse, answers[..1]).value;
    assert RunSteps(steps, parse, answers[..2]) == Advance(steps, parse, 1, st1, answers[1]);
    assert st1.outcomes["first"] == Success;
    assert RunSteps(steps, parse, answers[..2]).value == st1;
    assert RunSteps(steps, parse, answers[..3]) == Advance(steps, parse, 2, st1, answers[2]);
  }
}
