/**
 * Every run of an accepted component, decided on finitely many choices: which steps fail, and which flags the text
 * each step leaves sets. A choice determines which steps run, every run makes one, and so questions about all runs
 * (which steps some run executes, whether a failure can be swallowed, whether a consumer reads its producer's
 * text) are questions about choices.
 */
module StepReachability {
  import opened JsObject
  import opened Prelude
  import opened Profile
  import opened Conditional
  import opened StepChecks
  import opened StepExecution
  import opened StepTurns

  // ---- choices -------------------------------------------------------------------------------

  /** A failure of the step does not end the run: some step watches it, and it is no repair. */
  predicate Tolerable(steps: seq<LlmStep>, f: nat)
    requires f < |steps|
  {
    steps[f].name in FailureTargets(steps) && !RepairsPrevious(steps, f)
  }

  /** The steps whose flag the text sets when it is read as their artifact. */
  function FlagsSet(steps: seq<LlmStep>, parse: Parser, text: string): set<nat> {
    set i: nat | i < |steps| && steps[i].when.Some? && steps[i].when.value.guard.OnFlag?
                 && FlagAt(parse(text), TailSegments(steps[i].when.value.target))
  }

  /** Which steps fail if they run, and which flags the text each step leaves sets. */
  datatype Choice = Choice(fails: set<nat>, sets: seq<set<nat>>)

  /**
   * Some text sets exactly the flags chosen for step `j`: one `boundedMessage` can return if the step fails, which is
   * what `bounded` says of a text.
   */
  ghost predicate Writable(steps: seq<LlmStep>, parse: Parser, bounded: string -> bool, c: Choice, j: nat)
    requires j < |c.sets|
  {
    exists text :: FlagsSet(steps, parse, text) == c.sets[j] && (j in c.fails ==> bounded(text))
  }

  /** Only tolerable steps fail, and every set of flags is that of some text. */
  ghost predicate Possible(steps: seq<LlmStep>, parse: Parser, bounded: string -> bool, c: Choice) {
    && |c.sets| == |steps|
    && (forall f :: f in c.fails ==> f < |steps| && Tolerable(steps, f))
    && forall j: nat :: j < |steps| ==> Writable(steps, parse, bounded, c, j)
  }

  /** The steps the choice runs: each guard looks only at the choices of earlier steps that run. */
  predicate Chosen(steps: seq<LlmStep>, c: Choice, i: nat)
    requires i < |steps| == |c.sets|
    decreases i, 1
  {
    !steps[i].conditional || steps[i].when.None? ||
    (var target := steps[i].when.value.target;
     match steps[i].when.value.guard
     case OnFailure =>
       target != PROTO && exists f: nat :: f < i && steps[f].name == target && f in c.fails && Chosen(steps, c, f)
     case OnFlag =>
       HeadSegment(target) != PROTO
       && exists w: nat :: w < i && i in c.sets[w] && Holds(steps, c, i, HeadSegment(target), w)
     case OnMissing => !InheritedName(target) && !exists w: nat :: w < i && Holds(steps, c, i, target, w)
     case OtherGuard(_) => true)
  }

  /** Of the steps before `i` that run, `w` is the last to write the key `x`. */
  predicate Holds(steps: seq<LlmStep>, c: Choice, i: nat, x: string, w: nat)
    requires w < i < |steps| == |c.sets|
    decreases i, 0
  {
    && ArtifactKey(steps[w]) == x && Chosen(steps, c, w)
    && forall v: nat :: w < v < i && ArtifactKey(steps[v]) == x ==> !Chosen(steps, c, v)
  }

  function ChosenBefore(steps: seq<LlmStep>, c: Choice, n: nat): set<nat>
    requires n <= |steps| == |c.sets|
  {
    set i: nat | i < n && Chosen(steps, c, i)
  }

  /** The answer fails if the choice says so, and its text sets the flags the choice says. */
  ghost predicate AsChosen(steps: seq<LlmStep>, parse: Parser, c: Choice, i: nat, answer: Answer)
    requires i < |steps| == |c.sets|
  {
    (answer.Raised? <==> i in c.fails) && FlagsSet(steps, parse, AnswerText(answer)) == c.sets[i]
  }

  /** The answers of the steps that ran are those the choice prescribes. */
  ghost predicate Follows(steps: seq<LlmStep>, parse: Parser, c: Choice, ran: set<nat>, answers: seq<Answer>)
    requires |c.sets| == |steps|
  {
    forall i :: i in ran && i < |answers| && i < |steps| ==> AsChosen(steps, parse, c, i, answers[i])
  }

  // ---- a step that ran -----------------------------------------------------------------------

  /** When step `i` ran, its turn did not skip it, and if it was a repair it succeeded. */
  lemma {:induction false} RanAtItsTurn(steps: seq<LlmStep>, parse: Parser, answers: seq<Answer>, k: nat, i: nat)
    requires k <= |answers| <= |steps| && RunSteps(steps, parse, answers[..k]).Ok?
    requires i in RunSteps(steps, parse, answers[..k]).value.ran
    ensures i < k && RunSteps(steps, parse, answers[..i]).Ok?
    ensures var st := RunSteps(steps, parse, answers[..i]).value;
            var d := DecisionAt(steps, parse, i, st.artifacts, st.outcomes);
            (d.Run? || d.Repair?) && (d.Repair? ==> answers[i].Answered?)
  {
    assert k > 0;
    assert answers[..k][..k - 1] == answers[..k - 1];
    var st := RunSteps(steps, parse, answers[..k - 1]).value;
    AdvanceCases(steps, parse, k - 1, st, answers[k - 1]);
    if i in st.ran { RanAtItsTurn(steps, parse, answers, k - 1, i); }
  }

  /** A folding step is a repair whenever it is not skipped. */
  lemma {:induction false} FoldsRepair(steps: seq<LlmStep>, parse: Parser, f: nat, st: ExecState)
    requires f < |steps|
    ensures var d := DecisionAt(steps, parse, f, st.artifacts, st.outcomes);
            (RepairsPrevious(steps, f) ==> d.Repair? || d.Skip?) && (d.Repair? ==> RepairsPrevious(steps, f))
  {
    if steps[f].conditional && steps[f].when.Some? {
      OnFailureFiresOnFailure(parse, steps[f].when.value, steps[f].consumes, Preceding(steps, f), st.artifacts,
          st.outcomes);
    }
  }

  /** A step that ran and failed in a run that went on was tolerable. */
  lemma {:induction false} FailedIsTolerable(steps: seq<LlmStep>, parse: Parser, answers: seq<Answer>, k: nat, f: nat)
    requires Accepted(steps) && k <= |answers| <= |steps| && RunSteps(steps, parse, answers[..k]).Ok?
    requires f in RunSteps(steps, parse, answers[..k]).value.ran && f < |answers| && answers[f].Raised?
    ensures f < k && Tolerable(steps, f)
  {
    RanAtItsTurn(steps, parse, answers, k, f);
    FoldsRepair(steps, parse, f, RunSteps(steps, parse, answers[..f]).value);
    RunKeepsInvariant(steps, parse, answers, k);
  }

  // ---- a choice decides every turn -----------------------------------------------------------

  /** The state at the turn of step `n`, reached by answers that follow the choice. */
  ghost predicate AtTurn(steps: seq<LlmStep>, parse: Parser, c: Choice, answers: seq<Answer>, n: nat, st: ExecState) {
    && Accepted(steps) && n < |steps| == |c.sets| && n <= |answers|
    && OutcomesMatch(steps, n, st, answers) && WritersMatch(steps, n, st, answers)
    && st.ran == ChosenBefore(steps, c, n) && Follows(steps, parse, c, st.ran, answers)
  }

  lemma {:induction false} FailureGuardChosen(steps: seq<LlmStep>, parse: Parser, c: Choice, answers: seq<Answer>,
                                              n: nat, st: ExecState)
    requires AtTurn(steps, parse, c, answers, n, st)
    requires steps[n].conditional && steps[n].when.Some? && steps[n].when.value.guard.OnFailure?
    ensures Failed(st.outcomes, steps[n].when.value.target) <==> Chosen(steps, c, n)
  {
    assert StepFlowOk(steps, n);
    var f: nat :| f < n && steps[f].name == steps[n].when.value.target;
    FailedMeansRaised(steps, n, st, answers, f);
    forall g: nat | g < n && steps[g].name == steps[f].name ensures g == f { NamesUnique(steps, g, f); }
  }

  /** What a key holds is what the last chosen writer left. */
  lemma {:induction false} HolderWrote(steps: seq<LlmStep>, parse: Parser, c: Choice, answers: seq<Answer>, n: nat,
                                       st: ExecState, x: string)
    requires AtTurn(steps, parse, c, answers, n, st) && x != PROTO
    ensures x in st.artifacts <==> exists w: nat :: w < n && Holds(steps, c, n, x, w)
    ensures forall w: nat :: w < n && Holds(steps, c, n, x, w) ==> x in st.writer && st.writer[x] == w
  {
    if x in st.artifacts { assert Holds(steps, c, n, x, st.writer[x]); }
    forall w: nat | w < n && Holds(steps, c, n, x, w) ensures x in st.writer && st.writer[x] == w {
      assert w in st.ran;
    }
  }

  lemma {:induction false} FlagGuardChosen(steps: seq<LlmStep>, parse: Parser, c: Choice, answers: seq<Answer>, n: nat,
                                           st: ExecState)
    requires AtTurn(steps, parse, c, answers, n, st)
    requires steps[n].conditional && steps[n].when.Some? && steps[n].when.value.guard.OnFlag?
    ensures FlagSet(parse, st.artifacts, steps[n].when.value.target) <==> Chosen(steps, c, n)
  {
    var x := HeadSegment(steps[n].when.value.target);
    if x != PROTO {
      HolderWrote(steps, parse, c, answers, n, st, x);
      if x in st.artifacts {
        var w := st.writer[x];
        assert AsChosen(steps, parse, c, w, answers[w]);
      }
    }
  }

  /** At every turn the guard runs the step exactly when the choice does. */
  lemma {:induction false} TurnChosen(steps: seq<LlmStep>, parse: Parser, c: Choice, answers: seq<Answer>, n: nat,
                                      st: ExecState)
    requires AtTurn(steps, parse, c, answers, n, st)
    ensures var d := DecisionAt(steps, parse, n, st.artifacts, st.outcomes);
            !d.UnknownGuard? && (d.Skip? <==> !Chosen(steps, c, n))
  {
    assert StepGuardOk(steps[n]);
    if steps[n].conditional {
      var when := steps[n].when.value;
      OnFailureFiresOnFailure(parse, when, steps[n].consumes, Preceding(steps, n), st.artifacts, st.outcomes);
      match when.guard {
        case OnFailure => FailureGuardChosen(steps, parse, c, answers, n, st);
        case OnFlag => FlagGuardChosen(steps, parse, c, answers, n, st);
        case OnMissing => if !InheritedName(when.target) { HolderWrote(steps, parse, c, answers, n, st, when.target); }
        case OtherGuard(_) =>
      }
    }
  }

  lemma {:induction false} TurnKeepsChosen(steps: seq<LlmStep>, parse: Parser, c: Choice, answers: seq<Answer>, n: nat,
                                           st: ExecState)
    requires AtTurn(steps, parse, c, answers, n, st) && n < |answers|
    requires Advance(steps, parse, n, st, answers[n]).Ok?
    ensures Advance(steps, parse, n, st, answers[n]).value.ran == ChosenBefore(steps, c, n + 1)
  {
    TurnChosen(steps, parse, c, answers, n, st);
    var ran := Advance(steps, parse, n, st, answers[n]).value.ran;
    assert ran == if Chosen(steps, c, n) then st.ran + {n} else st.ran;
  }

  /** Answers that follow a choice run exactly the steps it chooses. */
  lemma {:induction false} RunIsChosen(steps: seq<LlmStep>, parse: Parser, c: Choice, answers: seq<Answer>, n: nat)
    requires Accepted(steps) && |c.sets| == |steps| && n <= |answers| <= |steps|
    requires RunSteps(steps, parse, answers[..n]).Ok?
    requires Follows(steps, parse, c, RunSteps(steps, parse, answers[..n]).value.ran, answers)
    ensures RunSteps(steps, parse, answers[..n]).value.ran == ChosenBefore(steps, c, n)
  {
    if n > 0 {
      assert answers[..n][..n - 1] == answers[..n - 1];
      var before := RunSteps(steps, parse, answers[..n - 1]).value;
      AdvanceCases(steps, parse, n - 1, before, answers[n - 1]);
      RunIsChosen(steps, parse, c, answers, n - 1);
      ReachesTurn(steps, parse, c, answers, n - 1);
      TurnKeepsChosen(steps, parse, c, answers, n - 1, before);
    }
  }

  lemma {:induction false} ReachesTurn(steps: seq<LlmStep>, parse: Parser, c: Choice, answers: seq<Answer>, n: nat)
    requires Accepted(steps) && n < |steps| == |c.sets| && n <= |answers| <= |steps|
    requires RunSteps(steps, parse, answers[..n]).Ok?
    requires var ran := RunSteps(steps, parse, answers[..n]).value.ran;
             ran == ChosenBefore(steps, c, n) && Follows(steps, parse, c, ran, answers)
    ensures AtTurn(steps, parse, c, answers, n, RunSteps(steps, parse, answers[..n]).value)
  {
    RunKeepsInvariant(steps, parse, answers, n);
    RunKeepsWriters(steps, parse, answers, n);
  }

  // ---- every possible choice is a run, and every run a possible choice -----------------------

  /** The texts of failed steps are ones `boundedMessage` can return. */
  ghost predicate Bounded(bounded: string -> bool, answers: seq<Answer>) {
    forall i :: 0 <= i < |answers| && answers[i].Raised? ==> bounded(answers[i].message)
  }

  /** The answers up to step `n` make up a run that does not throw. */
  ghost predicate RunTo(steps: seq<LlmStep>, parse: Parser, bounded: string -> bool, answers: seq<Answer>, n: nat) {
    n == |answers| <= |steps| && Bounded(bounded, answers) && RunSteps(steps, parse, answers).Ok?
  }

  /** The steps executed are those the choice chooses, and they fail as it says. */
  ghost predicate Makes(steps: seq<LlmStep>, parse: Parser, answers: seq<Answer>, c: Choice)
    requires |answers| <= |steps| == |c.sets| && RunSteps(steps, parse, answers).Ok?
  {
    var ran := RunSteps(steps, parse, answers).value.ran;
    ran == ChosenBefore(steps, c, |answers|) && Follows(steps, parse, c, ran, answers)
  }

  function ChosenAnswer(c: Choice, i: nat, text: string): Answer {
    if i in c.fails then Raised(Foreign, text) else Answered(text)
  }

  lemma {:induction false} ChosenAnswerFollows(steps: seq<LlmStep>, parse: Parser, c: Choice, i: nat, text: string)
    requires i < |steps| == |c.sets| && FlagsSet(steps, parse, text) == c.sets[i]
    ensures AsChosen(steps, parse, c, i, ChosenAnswer(c, i, text))
  {
  }

  /** A chosen answer never ends the run. */
  lemma {:induction false} ChosenAnswerAdvances(steps: seq<LlmStep>, parse: Parser, c: Choice, n: nat, st: ExecState,
                                                text: string)
    requires Accepted(steps) && n < |steps| && (n in c.fails ==> Tolerable(steps, n))
    requires !DecisionAt(steps, parse, n, st.artifacts, st.outcomes).UnknownGuard?
    ensures Advance(steps, parse, n, st, ChosenAnswer(c, n, text)).Ok?
  {
    FoldsRepair(steps, parse, n, st);
  }

  /** One more answer as chosen, one more turn as chosen. */
  lemma {:induction false} ChoiceGoesOn(steps: seq<LlmStep>, parse: Parser, c: Choice, answers: seq<Answer>, n: nat,
                                        text: string)
    requires Accepted(steps) && n < |answers| <= |steps| == |c.sets| && (n in c.fails ==> Tolerable(steps, n))
    requires RunSteps(steps, parse, answers[..n]).Ok? && answers[n] == ChosenAnswer(c, n, text)
    requires var ran := RunSteps(steps, parse, answers[..n]).value.ran;
             ran == ChosenBefore(steps, c, n) && Follows(steps, parse, c, ran, answers)
    ensures RunSteps(steps, parse, answers[..n + 1]).Ok?
    ensures RunSteps(steps, parse, answers[..n + 1]).value.ran == ChosenBefore(steps, c, n + 1)
  {
    var st := RunSteps(steps, parse, answers[..n]).value;
    ReachesTurn(steps, parse, c, answers, n);
    TurnChosen(steps, parse, c, answers, n, st);
    ChosenAnswerAdvances(steps, parse, c, n, st, text);
    TurnKeepsChosen(steps, parse, c, answers, n, st);
    assert answers[..n + 1][..n] == answers[..n];
  }

  lemma {:induction false} ChoiceRunGrows(steps: seq<LlmStep>, parse: Parser, bounded: string -> bool, c: Choice,
                                          front: seq<Answer>, text: string, answers: seq<Answer>)
    requires Accepted(steps) && |front| < |steps| == |c.sets| && (|front| in c.fails ==> Tolerable(steps, |front|))
    requires RunTo(steps, parse, bounded, front, |front|) && Makes(steps, parse, front, c)
    requires forall i :: 0 <= i < |front| ==> AsChosen(steps, parse, c, i, front[i])
    requires FlagsSet(steps, parse, text) == c.sets[|front|] && (|front| in c.fails ==> bounded(text))
    requires answers == front + [ChosenAnswer(c, |front|, text)]
    ensures RunTo(steps, parse, bounded, answers, |answers|) && Makes(steps, parse, answers, c)
    ensures forall i :: 0 <= i < |answers| ==> AsChosen(steps, parse, c, i, answers[i])
  {
    var n := |front|;
    assert answers[..n] == front && answers[..n + 1] == answers;
    ChosenAnswerFollows(steps, parse, c, n, text);
    forall i | 0 <= i < |answers| ensures AsChosen(steps, parse, c, i, answers[i]) {
      if i < n { assert answers[i] == front[i]; }
    }
    ChoiceGoesOn(steps, parse, c, answers, n, text);
  }

  /** Every possible choice is made by some run. */
  lemma {:induction false} ChoiceIsRun(steps: seq<LlmStep>, parse: Parser, bounded: string -> bool, c: Choice, n: nat)
    returns (answers: seq<Answer>)
    requires Accepted(steps) && Possible(steps, parse, bounded, c) && n <= |steps|
    ensures RunTo(steps, parse, bounded, answers, n) && Makes(steps, parse, answers, c)
    ensures forall i :: 0 <= i < n ==> AsChosen(steps, parse, c, i, answers[i])
  {
    if n == 0 {
      answers := [];
    } else {
      var front := ChoiceIsRun(steps, parse, bounded, c, n - 1);
      assert Writable(steps, parse, bounded, c, n - 1);
      var text :| FlagsSet(steps, parse, text) == c.sets[n - 1] && (n - 1 in c.fails ==> bounded(text));
      answers := front + [ChosenAnswer(c, n - 1, text)];
      ChoiceRunGrows(steps, parse, bounded, c, front, text, answers);
    }
  }

  /** What the answers chose; a step beyond them leaves no text. */
  function ChoiceMade(steps: seq<LlmStep>, parse: Parser, ran: set<nat>, answers: seq<Answer>): Choice {
    Choice(set f | f in ran && f < |answers| && answers[f].Raised?,
           seq(|steps|, j requires 0 <= j < |steps| =>
             FlagsSet(steps, parse, if j < |answers| then AnswerText(answers[j]) else "")))
  }

  lemma {:induction false} ChoiceMadeIsPossible(steps: seq<LlmStep>, parse: Parser, bounded: string -> bool,
                                                ran: set<nat>, answers: seq<Answer>)
    requires Bounded(bounded, answers)
    requires forall f :: f in ran && f < |answers| && answers[f].Raised? ==> f < |steps| && Tolerable(steps, f)
    ensures Possible(steps, parse, bounded, ChoiceMade(steps, parse, ran, answers))
    ensures Follows(steps, parse, ChoiceMade(steps, parse, ran, answers), ran, answers)
  {
    var c := ChoiceMade(steps, parse, ran, answers);
    forall j: nat | j < |steps| ensures Writable(steps, parse, bounded, c, j) {
      var text := if j < |answers| then AnswerText(answers[j]) else "";
      assert j in c.fails ==> answers[j].Raised? && bounded(answers[j].message);
      assert FlagsSet(steps, parse, text) == c.sets[j] && (j in c.fails ==> bounded(text));
    }
  }

  /** Every run makes a possible choice. */
  lemma {:induction false} RunIsChoice(steps: seq<LlmStep>, parse: Parser, bounded: string -> bool,
                                       answers: seq<Answer>)
    returns (c: Choice)
    requires Accepted(steps) && RunTo(steps, parse, bounded, answers, |answers|)
    ensures Possible(steps, parse, bounded, c) && Makes(steps, parse, answers, c)
  {
    assert answers[..|answers|] == answers;
    var ran := RunSteps(steps, parse, answers).value.ran;
    c := ChoiceMade(steps, parse, ran, answers);
    forall f | f in ran && f < |answers| && answers[f].Raised? ensures f < |steps| && Tolerable(steps, f) {
      FailedIsTolerable(steps, parse, answers, |answers|, f);
    }
    ChoiceMadeIsPossible(steps, parse, bounded, ran, answers);
    RunIsChosen(steps, parse, c, answers, |answers|);
  }

  // ---- which steps some run executes ---------------------------------------------------------

  /** The answers lead to the turn of step `k`, which is not skipped. */
  ghost predicate Executes(steps: seq<LlmStep>, parse: Parser, bounded: string -> bool, answers: seq<Answer>, k: nat)
    requires k < |steps|
  {
    && RunTo(steps, parse, bounded, answers, k)
    && var st := RunSteps(steps, parse, answers).value;
       !DecisionAt(steps, parse, k, st.artifacts, st.outcomes).Skip?
  }

  /** Some possible choice runs the step. */
  ghost predicate CanRun(steps: seq<LlmStep>, parse: Parser, bounded: string -> bool, k: nat)
    requires k < |steps|
  {
    exists c :: Possible(steps, parse, bounded, c) && Chosen(steps, c, k)
  }

  lemma {:induction false} ExecutionIsChosen(steps: seq<LlmStep>, parse: Parser, bounded: string -> bool,
                                             answers: seq<Answer>, k: nat)
    returns (c: Choice)
    requires Accepted(steps) && k < |steps| && Executes(steps, parse, bounded, answers, k)
    ensures Possible(steps, parse, bounded, c) && Makes(steps, parse, answers, c) && Chosen(steps, c, k)
  {
    c := RunIsChoice(steps, parse, bounded, answers);
    assert answers[..k] == answers;
    ReachesTurn(steps, parse, c, answers, k);
    TurnChosen(steps, parse, c, answers, k, RunSteps(steps, parse, answers).value);
  }

  lemma {:induction false} ChosenIsExecuted(steps: seq<LlmStep>, parse: Parser, bounded: string -> bool, c: Choice,
                                            k: nat)
    returns (answers: seq<Answer>)
    requires Accepted(steps) && k < |steps| && Possible(steps, parse, bounded, c) && Chosen(steps, c, k)
    ensures Executes(steps, parse, bounded, answers, k) && Makes(steps, parse, answers, c)
  {
    answers := ChoiceIsRun(steps, parse, bounded, c, k);
    assert answers[..k] == answers;
    ReachesTurn(steps, parse, c, answers, k);
    TurnChosen(steps, parse, c, answers, k, RunSteps(steps, parse, answers).value);
  }

  /** A step is executed by some run exactly when some possible choice runs it. */
  lemma {:induction false} CanRunExactly(steps: seq<LlmStep>, parse: Parser, bounded: string -> bool, k: nat)
    requires Accepted(steps) && k < |steps|
    ensures (exists answers :: Executes(steps, parse, bounded, answers, k)) <==> CanRun(steps, parse, bounded, k)
  {
    if answers :| Executes(steps, parse, bounded, answers, k) {
      var c := ExecutionIsChosen(steps, parse, bounded, answers, k);
    }
    if CanRun(steps, parse, bounded, k) {
      var c :| Possible(steps, parse, bounded, c) && Chosen(steps, c, k);
      var answers := ChosenIsExecuted(steps, parse, bounded, c, k);
    }
  }

  // ---- swallowed failures --------------------------------------------------------------------

  /** Whatever the model answers, when the executor returns every failure was handled. */
  ghost predicate NeverSwallows(steps: seq<LlmStep>, parse: Parser, bounded: string -> bool) {
    forall answers: seq<Answer> :: RunTo(steps, parse, bounded, answers, |steps|) ==>
      AllHandled(steps, RunSteps(steps, parse, answers).value, answers)
  }

  /** The choice runs a step named `__proto__` and makes it fail. */
  predicate LosesFailure(steps: seq<LlmStep>, c: Choice)
    requires |c.sets| == |steps|
  {
    exists b: nat :: b < |steps| && steps[b].name == PROTO && b in c.fails && Chosen(steps, c, b)
  }

  lemma {:induction false} SwallowsAsChosen(steps: seq<LlmStep>, parse: Parser, bounded: string -> bool,
                                            answers: seq<Answer>, c: Choice)
    requires Accepted(steps) && |c.sets| == |steps| && RunTo(steps, parse, bounded, answers, |steps|)
    requires Makes(steps, parse, answers, c)
    ensures AllHandled(steps, RunSteps(steps, parse, answers).value, answers) <==> !LosesFailure(steps, c)
  {
    NoSwallowedFailure(steps, parse, answers);
    var ran := RunSteps(steps, parse, answers).value.ran;
    forall b: nat | b < |steps| && b in ran ensures answers[b].Raised? <==> b in c.fails {
      assert AsChosen(steps, parse, c, b, answers[b]);
    }
    if LosesFailure(steps, c) {
      var b: nat :| b < |steps| && steps[b].name == PROTO && b in c.fails && Chosen(steps, c, b);
      assert b in ran && !FailureSeen(steps, ran, answers, b);
    }
  }

  /** No run swallows a failure if and only if no possible choice runs a step named `__proto__` and makes it fail. */
  lemma {:induction false} NeverSwallowsExactly(steps: seq<LlmStep>, parse: Parser, bounded: string -> bool)
    requires Accepted(steps)
    ensures NeverSwallows(steps, parse, bounded)
            <==> forall c :: Possible(steps, parse, bounded, c) ==> !LosesFailure(steps, c)
  {
    if forall c :: Possible(steps, parse, bounded, c) ==> !LosesFailure(steps, c) {
      forall answers: seq<Answer> | RunTo(steps, parse, bounded, answers, |steps|)
        ensures AllHandled(steps, RunSteps(steps, parse, answers).value, answers)
      {
        var c := RunIsChoice(steps, parse, bounded, answers);
        SwallowsAsChosen(steps, parse, bounded, answers, c);
      }
    }
    if NeverSwallows(steps, parse, bounded) {
      forall c | Possible(steps, parse, bounded, c) ensures !LosesFailure(steps, c) {
        var answers := ChoiceIsRun(steps, parse, bounded, c, |steps|);
        SwallowsAsChosen(steps, parse, bounded, answers, c);
      }
    }
  }

  // ---- what a consumer reads -----------------------------------------------------------------

  /** In every run that executes step `k` after step `p` ran, what `k` reads as `x` is what `p` wrote. */
  ghost predicate AlwaysFromProducer(steps: seq<LlmStep>, parse: Parser, bounded: string -> bool, k: nat, x: string,
                                     p: nat)
    requires k < |steps|
  {
    forall answers: seq<Answer> ::
      Executes(steps, parse, bounded, answers, k) && p in RunSteps(steps, parse, answers).value.ran ==>
        LastWrittenBy(RunSteps(steps, parse, answers).value, x, p)
  }

  /** In every run that executes step `k`, step `p` ran and what `k` reads as `x` is what it wrote. */
  ghost predicate AlwaysSupplied(steps: seq<LlmStep>, parse: Parser, bounded: string -> bool, k: nat, x: string, p: nat)
    requires k < |steps|
  {
    forall answers: seq<Answer> :: Executes(steps, parse, bounded, answers, k) ==>
      LastWrittenBy(RunSteps(steps, parse, answers).value, x, p)
  }

  /** The choice lets `x` be stored and runs no step between `p` and `k` that borrows it as its key. */
  predicate Kept(steps: seq<LlmStep>, c: Choice, p: nat, k: nat, x: string)
    requires k <= |steps| == |c.sets|
  {
    x != PROTO && forall i: nat :: p < i < k && Shadows(steps, i, x) ==> !Chosen(steps, c, i)
  }

  lemma {:induction false} ReadsAsChosen(steps: seq<LlmStep>, parse: Parser, answers: seq<Answer>, c: Choice, k: nat,
                                         x: string, p: nat)
    requires Accepted(steps) && k == |answers| < |steps| == |c.sets| && SoleProducer(steps, k, x, p)
    requires RunSteps(steps, parse, answers).Ok? && Makes(steps, parse, answers, c)
    ensures LastWrittenBy(RunSteps(steps, parse, answers).value, x, p)
            <==> Chosen(steps, c, p) && Kept(steps, c, p, k, x)
  {
    assert answers[..k] == answers;
    RunKeepsWriters(steps, parse, answers, k);
    WriterExact(steps, k, RunSteps(steps, parse, answers).value, answers, x, p);
  }

  /** Whenever the producer ran, its consumer reads its text, if and only if every choice running both keeps it. */
  lemma {:induction false} AlwaysFromProducerExactly(steps: seq<LlmStep>, parse: Parser, bounded: string -> bool,
                                                     k: nat, x: string)
    returns (p: nat)
    requires Accepted(steps) && k < |steps| && x in steps[k].consumes
    ensures SoleProducer(steps, k, x, p)
    ensures AlwaysFromProducer(steps, parse, bounded, k, x, p) <==>
            forall c :: Possible(steps, parse, bounded, c) && Chosen(steps, c, k) && Chosen(steps, c, p) ==>
              Kept(steps, c, p, k, x)
  {
    p := ConsumedHasProducer(steps, k, x);
    if forall c :: Possible(steps, parse, bounded, c) && Chosen(steps, c, k) && Chosen(steps, c, p) ==>
         Kept(steps, c, p, k, x)
    {
      forall answers: seq<Answer> | Executes(steps, parse, bounded, answers, k)
                                    && p in RunSteps(steps, parse, answers).value.ran
        ensures LastWrittenBy(RunSteps(steps, parse, answers).value, x, p)
      {
        var c := ExecutionIsChosen(steps, parse, bounded, answers, k);
        ReadsAsChosen(steps, parse, answers, c, k, x, p);
      }
    }
    if AlwaysFromProducer(steps, parse, bounded, k, x, p) {
      forall c | Possible(steps, parse, bounded, c) && Chosen(steps, c, k) && Chosen(steps, c, p)
        ensures Kept(steps, c, p, k, x)
      {
        var answers := ChosenIsExecuted(steps, parse, bounded, c, k);
        ReadsAsChosen(steps, parse, answers, c, k, x, p);
      }
    }
  }

  /** A consumer always reads its producer's text if and only if every choice running it runs and keeps that step. */
  lemma {:induction false} AlwaysSuppliedExactly(steps: seq<LlmStep>, parse: Parser, bounded: string -> bool, k: nat,
                                                 x: string)
    returns (p: nat)
    requires Accepted(steps) && k < |steps| && x in steps[k].consumes
    ensures SoleProducer(steps, k, x, p)
    ensures AlwaysSupplied(steps, parse, bounded, k, x, p) <==>
            forall c :: Possible(steps, parse, bounded, c) && Chosen(steps, c, k) ==>
              Chosen(steps, c, p) && Kept(steps, c, p, k, x)
  {
    p := ConsumedHasProducer(steps, k, x);
    if forall c :: Possible(steps, parse, bounded, c) && Chosen(steps, c, k) ==>
         Chosen(steps, c, p) && Kept(steps, c, p, k, x)
    {
      forall answers: seq<Answer> | Executes(steps, parse, bounded, answers, k)
        ensures LastWrittenBy(RunSteps(steps, parse, answers).value, x, p)
      {
        var c := ExecutionIsChosen(steps, parse, bounded, answers, k);
        ReadsAsChosen(steps, parse, answers, c, k, x, p);
      }
    }
    if AlwaysSupplied(steps, parse, bounded, k, x, p) {
      forall c | Possible(steps, parse, bounded, c) && Chosen(steps, c, k)
        ensures Chosen(steps, c, p) && Kept(steps, c, p, k, x)
      {
        var answers := ChosenIsExecuted(steps, parse, bounded, c, k);
        ReadsAsChosen(steps, parse, answers, c, k, x, p);
      }
    }
  }

  // ---- guards and chains whose choice is evident ---------------------------------------------

  /** Every step leaves the given text, and the given steps fail. */
  function Uniform(steps: seq<LlmStep>, parse: Parser, fails: set<nat>, text: string): Choice {
    Choice(fails, seq(|steps|, j requires 0 <= j < |steps| => FlagsSet(steps, parse, text)))
  }

  lemma {:induction false} UniformIsPossible(steps: seq<LlmStep>, parse: Parser, bounded: string -> bool,
                                             fails: set<nat>, text: string)
    requires forall f :: f in fails ==> f < |steps| && Tolerable(steps, f) && bounded(text)
    ensures Possible(steps, parse, bounded, Uniform(steps, parse, fails, text))
  {
    var c := Uniform(steps, parse, fails, text);
    forall j: nat | j < |steps| ensures Writable(steps, parse, bounded, c, j) {
      assert FlagsSet(steps, parse, text) == c.sets[j];
    }
  }

  /** Reached from an unconditional step along failures that can be recorded. */
  predicate OnFailureChain(steps: seq<LlmStep>, i: nat)
    requires i < |steps|
  {
    !steps[i].conditional ||
    (steps[i].when.Some? && steps[i].when.value.guard.OnFailure? && steps[i].when.value.target != PROTO
     && exists f: nat :: f < i && Watches(steps, i, f) && !RepairsPrevious(steps, f) && OnFailureChain(steps, f))
  }

  /** When everything that may fail does, all steps on failure chains run. */
  lemma {:induction false} ChainsRunTogether(steps: seq<LlmStep>, c: Choice, i: nat)
    requires i < |steps| == |c.sets| && OnFailureChain(steps, i)
    requires forall f: nat :: f < |steps| && Tolerable(steps, f) ==> f in c.fails
    ensures Chosen(steps, c, i)
  {
    if steps[i].conditional {
      var f: nat :| f < i && Watches(steps, i, f) && !RepairsPrevious(steps, f) && OnFailureChain(steps, f);
      assert steps[f].name in FailureTargets(steps);
      ChainsRunTogether(steps, c, f);
    }
  }

  /** So a producer, a later borrower of its key and their consumer on failure chains: the consumer may be misled. */
  lemma {:induction false} ChainedBorrowerOverwrites(steps: seq<LlmStep>, parse: Parser, bounded: string -> bool,
                                                     k: nat, x: string, p: nat, i: nat)
    requires Accepted(steps) && p < i < k < |steps| && x in steps[k].consumes && steps[p].produces == Some(x)
    requires Shadows(steps, i, x) && OnFailureChain(steps, p) && OnFailureChain(steps, i) && OnFailureChain(steps, k)
    requires exists text :: bounded(text)
    ensures !AlwaysFromProducer(steps, parse, bounded, k, x, p)
  {
    var q := AlwaysFromProducerExactly(steps, parse, bounded, k, x);
    var text :| bounded(text);
    var c := Uniform(steps, parse, (set f: nat | f < |steps| && Tolerable(steps, f)), text);
    UniformIsPossible(steps, parse, bounded, c.fails, text);
    ChainsRunTogether(steps, c, p);
    ChainsRunTogether(steps, c, i);
    ChainsRunTogether(steps, c, k);
  }

  /** Some text sets the flag. */
  ghost predicate CanFire(parse: Parser, target: string) {
    exists text :: FlagAt(parse(text), TailSegments(target))
  }

  /**
   * A guard on an unconditional step: an `on_failure` step can run unless its target is named `__proto__`; an
   * `on_flag` step exactly when some text sets its flag; an `on_missing` step never runs.
   */
  lemma {:induction false} GuardOnUnconditional(steps: seq<LlmStep>, parse: Parser, bounded: string -> bool, i: nat,
                                                f: nat)
    requires Accepted(steps) && f < i < |steps| && !steps[f].conditional && steps[i].when.Some?
    requires exists text :: bounded(text)
    requires var when := steps[i].when.value;
             match when.guard
             case OnFailure => steps[f].name == when.target
             case OnFlag => ArtifactKey(steps[f]) == HeadSegment(when.target)
             case OnMissing => ArtifactKey(steps[f]) == when.target
             case OtherGuard(_) => false
    ensures var when := steps[i].when.value;
            match when.guard
            case OnFailure => CanRun(steps, parse, bounded, i) <==> when.target != PROTO
            case OnFlag => CanRun(steps, parse, bounded, i)
                           <==> HeadSegment(when.target) != PROTO && CanFire(parse, when.target)
            case _ => !CanRun(steps, parse, bounded, i)
  {
    assert StepGuardOk(steps[i]);
    match steps[i].when.value.guard
    case OnFailure => WatcherOfUnconditional(steps, parse, bounded, i, f);
    case OnFlag => FlagOfUnconditional(steps, parse, bounded, i, f);
    case OnMissing => MissingUnconditional(steps, parse, bounded, i, f);
    case OtherGuard(_) =>
  }

  lemma {:induction false} WatcherOfUnconditional(steps: seq<LlmStep>, parse: Parser, bounded: string -> bool, i: nat,
                                                  f: nat)
    requires f < i < |steps| && !steps[f].conditional && Watches(steps, i, f) && exists text :: bounded(text)
    ensures CanRun(steps, parse, bounded, i) <==> steps[f].name != PROTO
  {
    var text :| bounded(text);
    var c := Uniform(steps, parse, {f}, text);
    assert steps[f].name in FailureTargets(steps);
    UniformIsPossible(steps, parse, bounded, {f}, text);
    assert Chosen(steps, c, i) <==> steps[f].name != PROTO;
  }

  /** Among the steps before `n` that the choice runs and that write `x`, there is a last. */
  lemma {:induction false} LastHolder(steps: seq<LlmStep>, c: Choice, n: nat, x: string, w: nat) returns (last: nat)
    requires w < n < |steps| == |c.sets| && ArtifactKey(steps[w]) == x && Chosen(steps, c, w)
    ensures last < n && Holds(steps, c, n, x, last)
    decreases n - w
  {
    if v: nat :| w < v < n && ArtifactKey(steps[v]) == x && Chosen(steps, c, v) {
      last := LastHolder(steps, c, n, x, v);
    } else {
      last := w;
    }
  }

  lemma {:induction false} FlagOfUnconditional(steps: seq<LlmStep>, parse: Parser, bounded: string -> bool, i: nat,
                                               f: nat)
    requires f < i < |steps| && !steps[f].conditional && steps[i].conditional && steps[i].when.Some?
    requires steps[i].when.value.guard.OnFlag? && ArtifactKey(steps[f]) == HeadSegment(steps[i].when.value.target)
    ensures CanRun(steps, parse, bounded, i)
            <==> ArtifactKey(steps[f]) != PROTO && CanFire(parse, steps[i].when.value.target)
  {
    var target := steps[i].when.value.target;
    if HeadSegment(target) != PROTO && CanFire(parse, target) {
      var text :| FlagAt(parse(text), TailSegments(target));
      var c := Uniform(steps, parse, {}, text);
      UniformIsPossible(steps, parse, bounded, {}, text);
      var w := LastHolder(steps, c, i, HeadSegment(target), f);
      assert i in FlagsSet(steps, parse, text) && c.sets[w] == FlagsSet(steps, parse, text);
    }
    if CanRun(steps, parse, bounded, i) {
      var c :| Possible(steps, parse, bounded, c) && Chosen(steps, c, i);
      var w: nat :| w < i && i in c.sets[w];
      assert Writable(steps, parse, bounded, c, w);
      var text :| FlagsSet(steps, parse, text) == c.sets[w];
      assert FlagAt(parse(text), TailSegments(target));
    }
  }

  lemma {:induction false} MissingUnconditional(steps: seq<LlmStep>, parse: Parser, bounded: string -> bool, i: nat,
                                                f: nat)
    requires f < i < |steps| && !steps[f].conditional && steps[i].conditional && steps[i].when.Some?
    requires steps[i].when.value.guard.OnMissing? && ArtifactKey(steps[f]) == steps[i].when.value.target
    ensures !CanRun(steps, parse, bounded, i)
  {
    forall c | Possible(steps, parse, bounded, c) ensures !Chosen(steps, c, i) {
      var w := LastHolder(steps, c, i, ArtifactKey(steps[f]), f);
    }
  }
}
