/**
 * The compiler's checks on one component's steps
 * (core/src/compile.rs, `check_when_guards` and `check_step_dataflow`).
 */
module StepChecks {
  import opened Prelude
  import opened Profile
  import opened Conditional

  // ---- guards --------------------------------------------------------------------------------

  predicate GuardOk(when: WhenGuard) {
    && !when.guard.OtherGuard?
    && !Blank(when.target)
    && (when.guard.OnFlag? ==> '.' in when.target)
  }

  predicate StepGuardOk(step: LlmStep) {
    && (step.conditional <==> step.when.Some?)
    && (step.when.Some? ==> GuardOk(step.when.value))
  }

  predicate GuardsOk(steps: seq<LlmStep>) {
    forall i :: 0 <= i < |steps| ==> StepGuardOk(steps[i])
  }

  datatype GuardError = MissingWhen | UnguardedWhen | UnknownGuardName | EmptyTarget | FlagNeedsField

  /** What each error says about the step it names. */
  predicate GuardFault(step: LlmStep, e: GuardError) {
    match e
    case MissingWhen => step.conditional && step.when.None?
    case UnguardedWhen => !step.conditional && step.when.Some?
    case UnknownGuardName => step.when.Some? && step.when.value.guard.OtherGuard?
    case EmptyTarget => step.when.Some? && Blank(step.when.value.target)
    case FlagNeedsField => step.when.Some? && step.when.value.guard.OnFlag? && '.' !in step.when.value.target
  }

  /** Fails at the first step whose guard is malformed, and only then. */
  method CheckWhenGuards(steps: seq<LlmStep>) returns (r: Outcome<(nat, GuardError)>)
    ensures r.Pass? <==> GuardsOk(steps)
    ensures r.Fail? ==> r.error.0 < |steps| && !StepGuardOk(steps[r.error.0]) && GuardsOk(steps[..r.error.0])
    ensures r.Fail? ==> GuardFault(steps[r.error.0], r.error.1)
  {
    var i := 0;
    while i < |steps|
      invariant 0 <= i <= |steps|
      invariant forall j :: 0 <= j < i ==> StepGuardOk(steps[j])
    {
      var step := steps[i];
      if step.conditional && step.when.None? { return Fail((i, MissingWhen)); }
      if !step.conditional && step.when.Some? { return Fail((i, UnguardedWhen)); }
      if step.when.Some? {
        var when := step.when.value;
        if when.guard.OtherGuard? { return Fail((i, UnknownGuardName)); }
        if Blank(when.target) { return Fail((i, EmptyTarget)); }
        if when.guard.OnFlag? && '.' !in when.target { return Fail((i, FlagNeedsField)); }
      }
      i := i + 1;
    }
    return Pass;
  }

  // ---- artifact flow -------------------------------------------------------------------------

  /** Some step strictly before `i` produces `artifact`. */
  predicate ProducedBefore(steps: seq<LlmStep>, i: nat, artifact: string)
    requires i <= |steps|
  {
    exists j :: 0 <= j < i && steps[j].produces == Some(artifact)
  }

  predicate NamedBefore(steps: seq<LlmStep>, i: nat, name: string)
    requires i <= |steps|
  {
    exists j :: 0 <= j < i && steps[j].name == name
  }

  predicate TargetOk(steps: seq<LlmStep>, i: nat)
    requires i < |steps|
  {
    match steps[i].when
    case None => true
    case Some(when) =>
      match when.guard
      case OnFailure => NamedBefore(steps, i, when.target)
      case OnMissing => ProducedBefore(steps, i, when.target)
      case OnFlag => ProducedBefore(steps, i, HeadSegment(when.target))
      case OtherGuard(_) => true
  }

  /** Name and artifact are new, everything consumed or guarded on comes from strictly earlier steps. */
  predicate StepFlowOk(steps: seq<LlmStep>, i: nat)
    requires i < |steps|
  {
    && !NamedBefore(steps, i, steps[i].name)
    && (steps[i].produces.Some? ==> !ProducedBefore(steps, i, steps[i].produces.value))
    && (forall k :: 0 <= k < |steps[i].consumes| ==> ProducedBefore(steps, i, steps[i].consumes[k]))
    && TargetOk(steps, i)
  }

  predicate DataflowOk(steps: seq<LlmStep>) {
    forall i :: 0 <= i < |steps| ==> StepFlowOk(steps, i)
  }

  datatype DataflowError =
    | DuplicateStepName | DuplicateProduces | ConsumesOwn | ConsumesUnproduced
    | FailureTargetNotEarlier | MissingTargetNotProduced | FlagTargetNotProduced

  /** What each error says about the step it names. */
  predicate FlowFault(steps: seq<LlmStep>, i: nat, e: DataflowError)
    requires i < |steps|
  {
    var step := steps[i];
    match e
    case DuplicateStepName => NamedBefore(steps, i, step.name)
    case DuplicateProduces => step.produces.Some? && ProducedBefore(steps, i, step.produces.value)
    case ConsumesOwn => step.produces.Some? && step.produces.value in step.consumes
    case ConsumesUnproduced => exists k :: 0 <= k < |step.consumes| && !ProducedBefore(steps, i, step.consumes[k])
    case FailureTargetNotEarlier =>
      step.when.Some? && step.when.value.guard.OnFailure? && !NamedBefore(steps, i, step.when.value.target)
    case MissingTargetNotProduced =>
      step.when.Some? && step.when.value.guard.OnMissing? && !ProducedBefore(steps, i, step.when.value.target)
    case FlagTargetNotProduced =>
      step.when.Some? && step.when.value.guard.OnFlag? && !ProducedBefore(steps, i, HeadSegment(step.when.value.target))
  }

  /** Fails at the first step that breaks the artifact-flow contract, and only then. */
  method CheckStepDataflow(steps: seq<LlmStep>) returns (r: Outcome<(nat, DataflowError)>)
    ensures r.Fail? ==> r.error.0 < |steps| && !StepFlowOk(steps, r.error.0) && FlowFault(steps, r.error.0, r.error.1)
    ensures r.Fail? ==> forall j :: 0 <= j < r.error.0 ==> StepFlowOk(steps, j)
    ensures r.Pass? <==> DataflowOk(steps)
  {
    var allStepNames: set<string> := {};
    var allProduces: set<string> := {};
    var earlierStepNames: set<string> := {};
    var producedSoFar: set<string> := {};
    var i := 0;
    while i < |steps|
      invariant 0 <= i <= |steps|
      invariant forall j :: 0 <= j < i ==> StepFlowOk(steps, j)
      invariant allStepNames == earlierStepNames && allProduces == producedSoFar
      invariant forall x :: x in earlierStepNames <==> NamedBefore(steps, i, x)
      invariant forall x :: x in producedSoFar <==> ProducedBefore(steps, i, x)
    {
      var step := steps[i];
      if step.name in allStepNames { return Fail((i, DuplicateStepName)); }
      allStepNames := allStepNames + {step.name};
      if step.produces.Some? {
        if step.produces.value in allProduces { return Fail((i, DuplicateProduces)); }
        allProduces := allProduces + {step.produces.value};
      }
      var k := 0;
      while k < |step.consumes|
        invariant 0 <= k <= |step.consumes|
        invariant forall j :: 0 <= j < k ==> ProducedBefore(steps, i, step.consumes[j])
      {
        if step.produces == Some(step.consumes[k]) { return Fail((i, ConsumesOwn)); }
        if step.consumes[k] !in producedSoFar { return Fail((i, ConsumesUnproduced)); }
        k := k + 1;
      }
      if step.when.Some? {
        var when := step.when.value;
        match when.guard {
          case OnFailure =>
            if when.target !in earlierStepNames { return Fail((i, FailureTargetNotEarlier)); }
          case OnMissing =>
            if when.target !in producedSoFar { return Fail((i, MissingTargetNotProduced)); }
          case OnFlag =>
            if HeadSegment(when.target) !in producedSoFar { return Fail((i, FlagTargetNotProduced)); }
          case OtherGuard(_) =>
        }
      }
      assert StepFlowOk(steps, i);
      earlierStepNames := earlierStepNames + {step.name};
      if step.produces.Some? { producedSoFar := producedSoFar + {step.produces.value}; }
      i := i + 1;
    }
    return Pass;
  }

  /** An accepted component names every step and every artifact once. */
  lemma {:induction false} NamesUnique(steps: seq<LlmStep>, i: nat, j: nat)
    requires DataflowOk(steps) && i < |steps| && j < |steps|
    ensures steps[i].name == steps[j].name ==> i == j
    ensures steps[i].produces.Some? && steps[i].produces == steps[j].produces ==> i == j
  {
    assert StepFlowOk(steps, i) && StepFlowOk(steps, j);
  }

  // ---- what acceptance means -----------------------------------------------------------------

  /** Exactly the conditional steps are guarded, with a known guard on a target that is not blank, dotted for flags. */
  lemma {:induction false} GuardsMeaning(steps: seq<LlmStep>)
    ensures GuardsOk(steps) <==>
            forall i :: 0 <= i < |steps| ==>
              match steps[i].when
              case None => !steps[i].conditional
              case Some(WhenGuard(OnFailure, target)) => steps[i].conditional && HasInk(target)
              case Some(WhenGuard(OnMissing, target)) => steps[i].conditional && HasInk(target)
              case Some(WhenGuard(OnFlag, target)) => steps[i].conditional && HasInk(target) && '.' in target
              case Some(WhenGuard(OtherGuard(_), _)) => false
  {
    assert forall i :: 0 <= i < |steps| && steps[i].when.Some? ==>
        (Blank(steps[i].when.value.target) <==> !HasInk(steps[i].when.value.target));
  }

  predicate HasInk(text: string) { exists k :: 0 <= k < |text| && !Whitespace(text[k]) }

  /** Names and artifacts differ; what a step consumes, watches or reads a flag from comes from an earlier step. */
  lemma {:induction false} DataflowMeaning(steps: seq<LlmStep>)
    ensures DataflowOk(steps) <==>
            && (forall i, j :: 0 <= i < j < |steps| ==> steps[i].name != steps[j].name)
            && (forall i, j :: 0 <= i < j < |steps| && steps[j].produces.Some? ==>
                steps[i].produces != steps[j].produces)
            && (forall i, x :: 0 <= i < |steps| && x in steps[i].consumes ==> MadeBefore(steps, i, x))
            && (forall i :: 0 <= i < |steps| ==> GuardedOnEarlier(steps, i))
  {
    forall i | 0 <= i < |steps|
      ensures StepFlowOk(steps, i) <==>
              && (forall j :: 0 <= j < i ==> steps[j].name != steps[i].name)
              && (forall j :: 0 <= j < i && steps[i].produces.Some? ==> steps[j].produces != steps[i].produces)
              && (forall x :: x in steps[i].consumes ==> MadeBefore(steps, i, x))
              && GuardedOnEarlier(steps, i)
    {
      StepFlowMeaning(steps, i);
    }
  }

  lemma {:induction false} StepFlowMeaning(steps: seq<LlmStep>, i: nat)
    requires i < |steps|
    ensures StepFlowOk(steps, i) <==>
            && (forall j :: 0 <= j < i ==> steps[j].name != steps[i].name)
            && (forall j :: 0 <= j < i && steps[i].produces.Some? ==> steps[j].produces != steps[i].produces)
            && (forall x :: x in steps[i].consumes ==> MadeBefore(steps, i, x))
            && GuardedOnEarlier(steps, i)
  {
    forall target: string, x: string ensures StartsWith(target, x) <==> x == HeadSegment(target) {
      StartIsHead(target, x);
    }
    assert forall x :: ProducedBefore(steps, i, x) <==> MadeBefore(steps, i, x);
    assert (forall x :: x in steps[i].consumes ==> MadeBefore(steps, i, x)) <==>
           forall k :: 0 <= k < |steps[i].consumes| ==> ProducedBefore(steps, i, steps[i].consumes[k]);
    assert GuardedOnEarlier(steps, i) <==> TargetOk(steps, i);
  }

  /** The step a guard watches, or that produces the artifact it looks at, is an earlier one. */
  ghost predicate GuardedOnEarlier(steps: seq<LlmStep>, i: nat)
    requires i < |steps|
  {
    match steps[i].when
    case Some(WhenGuard(OnFailure, target)) => exists j :: 0 <= j < i && steps[j].name == target
    case Some(WhenGuard(OnMissing, target)) => MadeBefore(steps, i, target)
    case Some(WhenGuard(OnFlag, target)) => exists x :: StartsWith(target, x) && MadeBefore(steps, i, x)
    case _ => true
  }

  /** Some step before the `i`-th produces `x`. */
  predicate MadeBefore(steps: seq<LlmStep>, i: nat, x: string)
    requires i <= |steps|
  {
    exists j :: 0 <= j < i && steps[j].produces == Some(x)
  }

  /** `x` is all of the target before its first dot. */
  predicate StartsWith(target: string, x: string) { '.' !in x && (target == x || x + "." <= target) }

  lemma {:induction false} StartIsHead(target: string, x: string)
    ensures StartsWith(target, x) <==> x == HeadSegment(target)
  {
    if target == [] || target[0] == '.' {
      if x != [] { assert x[0] in x && (x + ".")[0] == x[0]; }
    } else if x != [] {
      StartIsHead(target[1..], x[1..]);
      assert x == [x[0]] + x[1..] && target == [target[0]] + target[1..];
      assert x + "." == [x[0]] + (x[1..] + ".");
      if x[0] == target[0] {
        assert '.' in x <==> '.' in x[1..];
        assert x + "." <= target <==> x[1..] + "." <= target[1..];
      }
    }
  }
}
