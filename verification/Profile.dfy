/**
 * The authored shapes the compiler reads (core/src/model.rs) and the compiled component node the
 * dispatcher reads back, with the fields the call graph and the step executor depend on.
 */
module Profile {
  import opened Prelude

  datatype ComponentCall = ComponentCall(alias: string, component: string)

  /** The closed guard vocabulary, and any other name an author may have written. */
  datatype Guard = OnFailure | OnFlag | OnMissing | OtherGuard(name: string)

  datatype WhenGuard = WhenGuard(guard: Guard, target: string)

  datatype LlmStep = LlmStep(
    name: string,
    consumes: seq<string>,
    produces: Option<string>,
    conditional: bool,
    when: Option<WhenGuard>,
    calls: seq<ComponentCall>)

  datatype ComponentFile = ComponentFile(id: string, requiredCapabilities: seq<string>, steps: seq<LlmStep>)

  datatype Mount = Mount(useId: string, entrypoint: bool)

  /** One `components[]` entry of the compiled document. */
  datatype ComponentNode = ComponentNode(
    id: string,
    entrypoint: bool,
    requiredCapabilities: seq<string>,
    steps: seq<LlmStep>)

  const COMPONENT_INVOCATION := "component_invocation"

  function Aliases(calls: seq<ComponentCall>): (r: seq<string>)
  {
    seq(|calls|, i requires 0 <= i < |calls| => calls[i].alias)
  }

  function Targets(calls: seq<ComponentCall>): (r: seq<string>)
  {
    seq(|calls|, i requires 0 <= i < |calls| => calls[i].component)
  }

  /** Every declared call target of a component, in step and declaration order. */
  function StepTargets(steps: seq<LlmStep>): seq<string> {
    if steps == [] then [] else StepTargets(steps[..|steps| - 1]) + Targets(steps[|steps| - 1].calls)
  }

  predicate DeclaresCalls(steps: seq<LlmStep>) {
    exists i :: 0 <= i < |steps| && steps[i].calls != []
  }

  /** A target is listed exactly when some step declares a call to it. */
  lemma {:induction false} StepTargetsMeaning(steps: seq<LlmStep>, target: string)
    ensures target in StepTargets(steps)
       <==> exists i, k :: 0 <= i < |steps| && 0 <= k < |steps[i].calls| && steps[i].calls[k].component == target
  {
    if steps != [] {
      var n := |steps| - 1;
      StepTargetsMeaning(steps[..n], target);
      var last := Targets(steps[n].calls);
      assert StepTargets(steps) == StepTargets(steps[..n]) + last;
      if target in StepTargets(steps[..n]) {
        var i, k :| 0 <= i < n && 0 <= k < |steps[..n][i].calls| && steps[..n][i].calls[k].component == target;
        assert steps[i].calls[k].component == target;
      } else if target in last {
        var k :| 0 <= k < |last| && last[k] == target;
        assert steps[n].calls[k].component == target;
      }
      forall i, k | 0 <= i < |steps| && 0 <= k < |steps[i].calls| && steps[i].calls[k].component == target
        ensures target in StepTargets(steps)
      {
        if i < n {
          assert steps[..n][i].calls[k].component == target;
        } else {
          assert last[k] == target;
        }
      }
    }
  }

  /** `[a-z_][a-z0-9_]*`. */
  predicate CallName(value: string) {
    && value != []
    && ('a' <= value[0] <= 'z' || value[0] == '_')
    && forall i :: 1 <= i < |value| ==> 'a' <= value[i] <= 'z' || '0' <= value[i] <= '9' || value[i] == '_'
  }

  /** Lower-case letters, digits and underscores, not starting with a digit. */
  lemma {:induction false} CallNameMeaning(value: string)
    ensures CallName(value) <==>
            && value != [] && value[0] !in "0123456789"
            && forall c :: c in value ==> c in "abcdefghijklmnopqrstuvwxyz_0123456789"
  {
    forall c: char ensures c in "0123456789" <==> '0' <= c <= '9' { DigitMeaning(c); }
    forall c: char ensures c in "abcdefghijklmnopqrstuvwxyz_0123456789"
        <==> 'a' <= c <= 'z' || c == '_' || '0' <= c <= '9' { NameCharMeaning(c); }
    if CallName(value) {
      forall c | c in value ensures 'a' <= c <= 'z' || c == '_' || '0' <= c <= '9' {
        var i :| 0 <= i < |value| && value[i] == c;
      }
    }
    assert forall i :: 0 <= i < |value| ==> value[i] in value;
  }

  lemma {:induction false} DigitMeaning(c: char)
    ensures c in "0123456789" <==> '0' <= c <= '9'
  {
  }

  lemma {:induction false} NameCharMeaning(c: char)
    ensures c in "abcdefghijklmnopqrstuvwxyz_0123456789" <==> 'a' <= c <= 'z' || c == '_' || '0' <= c <= '9'
  {
  }
}
