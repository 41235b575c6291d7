/**
 * Run, skip or repair: what a conditional step does next
 * (dispatcher/claude-agent-sdk/src/conditional.ts).
 */
module Conditional {
  import opened JsObject
  import opened Prelude
  import opened Profile

  datatype StepOutcome = Success | Failure

  datatype StepIdentity = StepIdentity(name: string, produces: Option<string>)

  /** `UnknownGuard` stands for the thrown error on a guard outside the closed vocabulary. */
  datatype Decision = Run | Skip | Repair(target: StepIdentity) | UnknownGuard

  /** Parsed JSON as far as a flag can see it: arrays are objects keyed by index. */
  datatype Json = JTrue | JObject(fields: map<string, Json>) | JOther

  /** `JSON.parse`, with a syntax error read as no value. */
  type Parser = string -> Option<Json>

  const DEFAULT_MAX_REPAIR_ATTEMPTS := 1

  // ---- dotted flag targets -------------------------------------------------------------------

  /** Everything before the first dot. */
  function HeadSegment(target: string): (head: string)
    ensures head <= target && '.' !in head
    ensures head != target ==> target[|head|] == '.'
  {
    if target == [] || target[0] == '.' then [] else [target[0]] + HeadSegment(target[1..])
  }

  /** The segments after the first dot. */
  function TailSegments(target: string): seq<string>
    decreases |target|
  {
    var head := HeadSegment(target);
    if |head| == |target| then []
    else
      var rest := target[|head| + 1..];
      [HeadSegment(rest)] + TailSegments(rest)
  }

  /** The segments joined by dots. */
  function Dotted(segments: seq<string>): string
    requires segments != []
  {
    if |segments| == 1 then segments[0] else segments[0] + "." + Dotted(segments[1..])
  }

  /** Head and tail are the split of the target at its dots: joined they spell it, and none contains a dot. */
  lemma {:induction false} SegmentsSpellTarget(target: string)
    ensures Dotted([HeadSegment(target)] + TailSegments(target)) == target
    ensures '.' !in HeadSegment(target) && forall k :: 0 <= k < |TailSegments(target)| ==>
        '.' !in TailSegments(target)[k]
    decreases |target|
  {
    var head, tail := HeadSegment(target), TailSegments(target);
    assert ([head] + tail)[1..] == tail;
    if head != target {
      var rest := target[|head| + 1..];
      SegmentsSpellTarget(rest);
      assert target == head + "." + rest;
    }
  }

  function Field(value: Option<Json>, key: string): Option<Json> {
    if value.Some? && value.value.JObject? && key in value.value.fields then Some(value.value.fields[key]) else None
  }

  /** Following `path` from `value` ends at the JSON value `true`. */
  function FlagAt(value: Option<Json>, path: seq<string>): bool
    decreases |path|
  {
    if path == [] then value == Some(JTrue) else FlagAt(Field(value, path[0]), path[1..])
  }

  /**
   * An inherited member read in place of a text is not JSON, and no member a parsed value inherits leads to
   * `true`, so only stored texts and their own fields can set a flag.
   */
  function FlagSet(parse: Parser, artifacts: map<string, string>, target: string): bool {
    HeadSegment(target) in artifacts && FlagAt(parse(artifacts[HeadSegment(target)]), TailSegments(target))
  }

  /** An absent value stays absent, so a path that leaves the object never fires a flag. */
  lemma {:induction false} AbsentIsFalse(path: seq<string>)
    ensures !FlagAt(None, path)
  {
    if path != [] { AbsentIsFalse(path[1..]); }
  }

  method ReadFlag(parse: Parser, artifacts: map<string, string>, target: string) returns (r: bool)
    ensures r == FlagSet(parse, artifacts, target)
  {
    if HeadSegment(target) !in artifacts { return false; }
    var cur := parse(artifacts[HeadSegment(target)]);
    var path := TailSegments(target);
    var i := 0;
    while i < |path|
      invariant 0 <= i <= |path|
      invariant FlagAt(cur, path[i..]) == FlagSet(parse, artifacts, target)
    {
      assert path[i..][1..] == path[i + 1..];
      if cur.None? || !cur.value.JObject? {
        AbsentIsFalse(path[i + 1..]);
        return false;
      }
      cur := Field(cur, path[i]);
      i := i + 1;
    }
    return cur == Some(JTrue);
  }

  // ---- the decision --------------------------------------------------------------------------

  predicate Failed(outcomes: map<string, StepOutcome>, name: string) {
    Get(outcomes, name) == Own(Failure)
  }

  function EvaluateGuard(parse: Parser, when: WhenGuard, artifacts: map<string, string>,
                         outcomes: map<string, StepOutcome>): Option<bool>
  {
    match when.guard
    case OnFailure => Some(Failed(outcomes, when.target))
    case OnFlag => Some(FlagSet(parse, artifacts, when.target))
    case OnMissing => Some(Get(artifacts, when.target).Undefined?)
    case OtherGuard(_) => None
  }

  function RepairFoldTarget(when: WhenGuard, consumes: seq<string>, preceding: Option<StepIdentity>)
    : (r: Option<StepIdentity>)
    ensures r.Some? ==> r == preceding && when.guard.OnFailure? && when.target == r.value.name
    ensures r.Some? ==> r.value.produces.Some? && r.value.produces.value in consumes
    ensures r.None? && when.guard.OnFailure? && preceding.Some? && when.target == preceding.value.name ==>
              forall c :: c in consumes ==> Some(c) != preceding.value.produces
  {
    if !when.guard.OnFailure? || preceding.None? then None
    else if when.target != preceding.value.name then None
    else if preceding.value.produces.None? || preceding.value.produces.value !in consumes then None
    else preceding
  }

  function ClassifyConditionalStep(parse: Parser, when: WhenGuard, consumes: seq<string>,
                                   preceding: Option<StepIdentity>,
                                   artifacts: map<string, string>, outcomes: map<string, StepOutcome>): Decision
  {
    var target := RepairFoldTarget(when, consumes, preceding);
    if target.Some? then
      if Failed(outcomes, target.value.name) then Repair(target.value) else Skip
    else
      match EvaluateGuard(parse, when, artifacts, outcomes)
      case Some(holds) => if holds then Run else Skip
      case None => UnknownGuard
  }

  /**
   * Whichever of the two shapes an `on_failure` guard takes, the step is skipped precisely when its target is
   * not recorded as failed; and it is a repair precisely when the failed target is the step immediately before
   * and its artifact is consumed.
   */
  lemma {:induction false} OnFailureFiresOnFailure(parse: Parser, when: WhenGuard, consumes: seq<string>,
                                                   preceding: Option<StepIdentity>, artifacts: map<string, string>,
                                                   outcomes: map<string, StepOutcome>)
    ensures var d := ClassifyConditionalStep(parse, when, consumes, preceding, artifacts, outcomes);
            && (when.guard.OnFailure? ==> !d.UnknownGuard? && (d.Skip? <==> !Failed(outcomes, when.target)))
            && (d.Repair? <==> when.guard.OnFailure? && Failed(outcomes, when.target)
                               && preceding.Some? && preceding.value.name == when.target
                               && preceding.value.produces.Some? && preceding.value.produces.value in consumes)
            && (d.Repair? ==> Some(d.target) == preceding)
  {
  }

  // ---- the repair loop -----------------------------------------------------------------------

  /** How one awaited attempt ends: with a result, or rejected. */
  datatype AttemptEnd<+E> = Ended(failed: bool) | Rejected(error: E)

  /**
   * Stops at the first attempt that does not fail, at the first rejected one, whose error it passes on, or after
   * exactly `maxAttempts`; recovery is reported precisely when a success is the first attempt not to fail.
   */
  method RunRepairLoop<E(!new)>(maxAttempts: nat, attempt: nat -> AttemptEnd<E>) returns (r: Result<(bool, nat), E>)
    ensures r.Err? <==> exists i: nat :: FirstNotFailed(attempt, i) && i <= maxAttempts && attempt(i).Rejected?
    ensures r.Err? ==> exists i: nat ::
        FirstNotFailed(attempt, i) && i <= maxAttempts && attempt(i) == Rejected(r.error)
    ensures r.Ok? && r.value.0 ==> FirstNotFailed(attempt, r.value.1) && r.value.1 <= maxAttempts
                                   && attempt(r.value.1) == Ended(false)
    ensures r.Ok? && !r.value.0 ==> r.value.1 == maxAttempts
                                    && forall i :: 1 <= i <= maxAttempts ==> attempt(i) == Ended(true)
  {
    var i := 1;
    while i <= maxAttempts
      invariant 1 <= i <= maxAttempts + 1
      invariant forall j :: 1 <= j < i ==> attempt(j) == Ended(true)
    {
      var result := attempt(i);
      if result.Rejected? {
        assert FirstNotFailed(attempt, i);
        return Err(result.error);
      }
      if !result.failed { return Ok((true, i)); }
      i := i + 1;
    }
    return Ok((false, maxAttempts));
  }

  ghost predicate FirstNotFailed<E(!new)>(attempt: nat -> AttemptEnd<E>, i: nat) {
    1 <= i && attempt(i) != Ended(true) && forall j :: 1 <= j < i ==> attempt(j) == Ended(true)
  }
}
