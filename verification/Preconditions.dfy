/**
 * Context preconditions at compile time and again at run time
 * (core/src/compile.rs, `resolve_precondition_args`, `evaluate_preconditions`, `eval_predicate`,
 * `precondition_json` and `verify_context_preconditions`).
 */
module Preconditions {
  import opened Prelude

  /** An authored or bound argument value; only strings are ever looked into. */
  datatype Value = Text(text: string) | NonText(id: int)

  type Args = map<string, Value>

  datatype Precondition = Precondition(name: string, args: Option<Args>)

  datatype Additivity = Additive | SemiAdditive | NonAdditive

  datatype MetricInfo = MetricInfo(name: string, declared: bool, additivity: Option<Additivity>)

  datatype ModelInfo = ModelInfo(name: string, hasTimestamp: bool)

  /** What a `ContextLoader` answers; `canAnswer` is whatever the adapter chose to override it with. */
  datatype Context = Context(
    parseable: bool,
    metrics: seq<MetricInfo>,
    dimensions: nat,
    timeDimensions: nat,
    models: seq<ModelInfo>,
    lineageResolvable: bool,
    sourceIntrospectable: Option<bool>,
    rawDocsReadable: Option<bool>,
    canAnswer: string -> bool)

  const VOCABULARY: set<string> := {
    "mdl_parseable", "has_metric", "has_queryable_dimension", "has_time_dimension", "has_groupable_dimension",
    "metric_additive", "model_has_timestamp", "lineage_resolvable", "wren_project_exists",
    "source_introspectable", "raw_docs_readable"
  }

  datatype PredicateOutcome = Passes | Fails | Unanswerable

  // ---- evaluation ----------------------------------------------------------------------------

  function BooleanOutcome(b: bool): PredicateOutcome { if b then Passes else Fails }

  function RawShape(probe: Option<bool>): PredicateOutcome {
    match probe case None => Unanswerable case Some(b) => BooleanOutcome(b)
  }

  /** `args.get(key).as_str()`. */
  function TextArg(args: Option<Args>, key: string): Option<string> {
    if args.Some? && key in args.value && args.value[key].Text? then Some(args.value[key].text) else None
  }

  function FindModel(models: seq<ModelInfo>, name: string): Option<ModelInfo> {
    if models == [] then None else if models[0].name == name then Some(models[0]) else FindModel(models[1..], name)
  }

  function MetricAdditivity(metrics: seq<MetricInfo>, name: string): Option<Additivity> {
    if metrics == [] then None
    else if metrics[0].name == name then metrics[0].additivity else MetricAdditivity(metrics[1..], name)
  }

  predicate CountsAsAdditive(additivity: Option<Additivity>) {
    additivity == Some(Additive) || additivity == Some(SemiAdditive)
  }

  function EvalModelHasTimestamp(args: Option<Args>, context: Context): PredicateOutcome {
    match TextArg(args, "model")
    case Some(name) =>
      (match FindModel(context.models, name)
       case Some(model) => BooleanOutcome(model.hasTimestamp)
       case None => Unanswerable)
    case None => BooleanOutcome(exists m :: m in context.models && m.hasTimestamp)
  }

  function EvalMetricAdditive(args: Option<Args>, context: Context): PredicateOutcome {
    match TextArg(args, "metric")
    case Some(name) =>
      (match MetricAdditivity(context.metrics, name)
       case None => Unanswerable
       case Some(NonAdditive) => Fails
       case Some(_) => Passes)
    case None =>
      if !exists m :: m in context.metrics && m.declared then Unanswerable
      else BooleanOutcome(exists m :: m in context.metrics && CountsAsAdditive(m.additivity))
  }

  function EvalUncensored(name: string, args: Option<Args>, context: Context): PredicateOutcome {
    if name == "mdl_parseable" || name == "wren_project_exists" then BooleanOutcome(context.parseable)
    else if name == "has_metric" then BooleanOutcome(context.metrics != [])
    else if name == "has_queryable_dimension" || name == "has_groupable_dimension"
    then BooleanOutcome(context.dimensions > 0)
    else if name == "has_time_dimension" then BooleanOutcome(context.timeDimensions > 0)
    else if name == "model_has_timestamp" then EvalModelHasTimestamp(args, context)
    else if name == "lineage_resolvable" then BooleanOutcome(context.lineageResolvable)
    else if name == "metric_additive" then EvalMetricAdditive(args, context)
    else if name == "source_introspectable" then RawShape(context.sourceIntrospectable)
    else if name == "raw_docs_readable" then RawShape(context.rawDocsReadable)
    else Unanswerable
  }

  /** The adapter's own answerable set is consulted only after the evaluator had an answer. */
  function EvalPredicate(name: string, args: Option<Args>, context: Context): PredicateOutcome {
    var outcome := EvalUncensored(name, args, context);
    if outcome.Unanswerable? then outcome
    else if context.canAnswer(name) then outcome
    else Unanswerable
  }

  // ---- what each predicate asks of the context -----------------------------------------------

  /** `outcome` is that of a question answered `b`. */
  predicate Answers(outcome: PredicateOutcome, b: bool) { outcome == if b then Passes else Fails }

  /** The condition pins `key` to the name `x`. */
  predicate Pins(args: Option<Args>, key: string, x: string) {
    args.Some? && key in args.value && args.value[key] == Text(x)
  }

  /** The condition pins nothing under `key`: it is absent, or not a string. */
  predicate Unpinned(args: Option<Args>, key: string) {
    args.None? || key !in args.value || args.value[key].NonText?
  }

  predicate FirstMetric(metrics: seq<MetricInfo>, i: nat, x: string) {
    i < |metrics| && metrics[i].name == x && forall j :: 0 <= j < i ==> metrics[j].name != x
  }

  predicate FirstModel(models: seq<ModelInfo>, i: nat, x: string) {
    i < |models| && models[i].name == x && forall j :: 0 <= j < i ==> models[j].name != x
  }

  lemma {:induction false} FirstMetricFound(metrics: seq<MetricInfo>, i: nat, x: string)
    requires FirstMetric(metrics, i, x)
    ensures MetricAdditivity(metrics, x) == metrics[i].additivity
  {
    if i > 0 { FirstMetricFound(metrics[1..], i - 1, x); }
  }

  lemma {:induction false} NoMetricFound(metrics: seq<MetricInfo>, x: string)
    requires forall m :: m in metrics ==> m.name != x
    ensures MetricAdditivity(metrics, x) == None
  {
    if metrics != [] { NoMetricFound(metrics[1..], x); }
  }

  lemma {:induction false} FirstModelFound(models: seq<ModelInfo>, i: nat, x: string)
    requires FirstModel(models, i, x)
    ensures FindModel(models, x) == Some(models[i])
  {
    if i > 0 { FirstModelFound(models[1..], i - 1, x); }
  }

  lemma {:induction false} NoModelFound(models: seq<ModelInfo>, x: string)
    requires forall m :: m in models ==> m.name != x
    ensures FindModel(models, x) == None
  {
    if models != [] { NoModelFound(models[1..], x); }
  }

  /**
   * A pinned metric is decided by the first metric of that name: it passes if that is additive or semi-additive,
   * fails if it is not additive, and is unanswerable if it carries no additivity or there is no such metric.
   */
  lemma {:induction false} PinnedMetric(args: Option<Args>, context: Context, x: string)
    requires Pins(args, "metric", x) && context.canAnswer("metric_additive")
    ensures forall i: nat :: FirstMetric(context.metrics, i, x) ==>
        match context.metrics[i].additivity
        case Some(Additive) | Some(SemiAdditive) => EvalPredicate("metric_additive", args, context) == Passes
        case Some(NonAdditive) => EvalPredicate("metric_additive", args, context) == Fails
        case None => EvalPredicate("metric_additive", args, context) == Unanswerable
    ensures (forall m :: m in context.metrics ==> m.name != x) ==>
              EvalPredicate("metric_additive", args, context) == Unanswerable
  {
    forall i: nat | FirstMetric(context.metrics, i, x)
      ensures MetricAdditivity(context.metrics, x) == context.metrics[i].additivity
    {
      FirstMetricFound(context.metrics, i, x);
    }
    if forall m :: m in context.metrics ==> m.name != x { NoMetricFound(context.metrics, x); }
  }

  /** Without a pin: unanswerable if no metric is declared, and otherwise whether some metric is additive at all. */
  lemma {:induction false} AnyMetric(args: Option<Args>, context: Context)
    requires Unpinned(args, "metric") && context.canAnswer("metric_additive")
    ensures var outcome := EvalPredicate("metric_additive", args, context);
            if forall i :: 0 <= i < |context.metrics| ==> !context.metrics[i].declared then outcome == Unanswerable
            else Answers(outcome, exists i :: && 0 <= i < |context.metrics| && context.metrics[i].additivity.Some?
                                              && context.metrics[i].additivity.value != NonAdditive)
  {
    forall m ensures m in context.metrics <==> exists i :: 0 <= i < |context.metrics| && context.metrics[i] == m {
    }
  }

  /** A pinned model is decided by the first model of that name, and unanswerable if there is none. */
  lemma {:induction false} PinnedModel(args: Option<Args>, context: Context, x: string)
    requires Pins(args, "model", x) && context.canAnswer("model_has_timestamp")
    ensures forall i: nat :: FirstModel(context.models, i, x) ==>
        Answers(EvalPredicate("model_has_timestamp", args, context), context.models[i].hasTimestamp)
    ensures (forall m :: m in context.models ==> m.name != x) ==>
              EvalPredicate("model_has_timestamp", args, context) == Unanswerable
  {
    forall i: nat | FirstModel(context.models, i, x)
      ensures FindModel(context.models, x) == Some(context.models[i])
    {
      FirstModelFound(context.models, i, x);
    }
    if forall m :: m in context.models ==> m.name != x { NoModelFound(context.models, x); }
  }

  /** Without a pin: whether some model has a timestamp. */
  lemma {:induction false} AnyModel(args: Option<Args>, context: Context)
    requires Unpinned(args, "model") && context.canAnswer("model_has_timestamp")
    ensures Answers(EvalPredicate("model_has_timestamp", args, context),
        exists i :: 0 <= i < |context.models| && context.models[i].hasTimestamp)
  {
    forall m ensures m in context.models <==> exists i :: 0 <= i < |context.models| && context.models[i] == m {
    }
  }

  /** A predicate the context does not decline is answered `b`, whatever its arguments. */
  predicate Decided(name: string, args: Option<Args>, context: Context, b: bool) {
    context.canAnswer(name) ==> Answers(EvalPredicate(name, args, context), b)
  }

  /** What a probe of a raw source answers, if it can be made. */
  predicate Probed(name: string, args: Option<Args>, context: Context, probe: Option<bool>) {
    if probe.Some? then Decided(name, args, context, probe.value)
    else EvalPredicate(name, args, context) == Unanswerable
  }

  /** Every other predicate looks at its own part of the context. */
  lemma {:induction false} ShapePredicates(args: Option<Args>, context: Context)
    ensures Decided("mdl_parseable", args, context, context.parseable)
    ensures Decided("wren_project_exists", args, context, context.parseable)
    ensures Decided("has_metric", args, context, |context.metrics| > 0)
    ensures Decided("has_queryable_dimension", args, context, context.dimensions > 0)
    ensures Decided("has_groupable_dimension", args, context, context.dimensions > 0)
  {
  }

  lemma {:induction false} TimeAndLineage(args: Option<Args>, context: Context)
    ensures Decided("has_time_dimension", args, context, context.timeDimensions > 0)
    ensures Decided("lineage_resolvable", args, context, context.lineageResolvable)
  {
  }

  lemma {:induction false} ProbePredicates(args: Option<Args>, context: Context)
    ensures Probed("source_introspectable", args, context, context.sourceIntrospectable)
    ensures Probed("raw_docs_readable", args, context, context.rawDocsReadable)
  {
  }

  /** And a predicate the context declines is unanswerable. */
  lemma {:induction false} DeclinedIsUnanswerable(name: string, args: Option<Args>, context: Context)
    requires !context.canAnswer(name)
    ensures EvalPredicate(name, args, context) == Unanswerable
  {
  }

  // ---- resolving `$param:` references --------------------------------------------------------

  const PARAM_PREFIX := "$param:"

  predicate IsTemplate(value: Value) { value.Text? && PARAM_PREFIX <= value.text }

  function ParamName(value: Value): string
    requires IsTemplate(value)
  {
    value.text[|PARAM_PREFIX|..]
  }

  predicate ArgResolvable(value: Value, params: set<string>, binds: Args) {
    IsTemplate(value) ==> ParamName(value) in params && ParamName(value) in binds
  }

  function ResolvedValue(value: Value, params: set<string>, binds: Args): Value
    requires ArgResolvable(value, params, binds)
  {
    if IsTemplate(value) then binds[ParamName(value)] else value
  }

  predicate ArgsResolvable(args: Option<Args>, params: set<string>, binds: Args) {
    args.Some? ==> forall key :: key in args.value ==> ArgResolvable(args.value[key], params, binds)
  }

  function ResolvedArgs(args: Option<Args>, params: set<string>, binds: Args): Option<Args>
    requires ArgsResolvable(args, params, binds)
  {
    match args
    case None => None
    case Some(a) => Some(map key | key in a :: ResolvedValue(a[key], params, binds))
  }

  /** Every `$param:name` is replaced by what `name` is bound to, and every other value is kept. */
  ghost predicate Substituted(args: Option<Args>, resolved: Option<Args>, params: set<string>, binds: Args) {
    && (args.Some? <==> resolved.Some?)
    && (args.Some? ==>
          && resolved.value.Keys == args.value.Keys
          && (forall key, x :: key in args.value && args.value[key] == Text("$param:" + x) ==>
                x in params && x in binds && resolved.value[key] == binds[x])
          && forall key :: key in args.value && !(exists x :: args.value[key] == Text("$param:" + x)) ==>
               resolved.value[key] == args.value[key])
  }

  lemma {:induction false} ResolvedIsSubstituted(args: Option<Args>, params: set<string>, binds: Args)
    requires ArgsResolvable(args, params, binds)
    ensures Substituted(args, ResolvedArgs(args, params, binds), params, binds)
  {
    forall x: string ensures PARAM_PREFIX <= "$param:" + x && ("$param:" + x)[|PARAM_PREFIX|..] == x {
    }
    forall value: Value | IsTemplate(value) ensures value == Text("$param:" + ParamName(value)) {
      assert value.text == PARAM_PREFIX + value.text[|PARAM_PREFIX|..];
    }
  }

  datatype ResolveError = UndeclaredParam(name: string) | UnboundParam(name: string)

  /** The loop over the argument map, in whatever order the hash map yields its entries. */
  method ResolvePreconditionArgs(args: Option<Args>, params: set<string>, binds: Args)
    returns (r: Result<Option<Args>, ResolveError>)
    ensures r.Ok? <==> ArgsResolvable(args, params, binds)
    ensures r.Ok? ==> r.value == ResolvedArgs(args, params, binds) && Substituted(args, r.value, params, binds)
    ensures r.Err? && r.error.UndeclaredParam? ==> r.error.name !in params
    ensures r.Err? && r.error.UnboundParam? ==> r.error.name in params && r.error.name !in binds
  {
    if ArgsResolvable(args, params, binds) { ResolvedIsSubstituted(args, params, binds); }
    if args.None? { return Ok(None); }
    var pending := args.value.Keys;
    var resolved: Args := map[];
    while pending != {}
      invariant pending <= args.value.Keys && resolved.Keys == args.value.Keys - pending
      invariant forall key :: key in resolved ==>
                  ArgResolvable(args.value[key], params, binds)
                      && resolved[key] == ResolvedValue(args.value[key], params, binds)
      decreases pending
    {
      var key :| key in pending;
      pending := pending - {key};
      var value := args.value[key];
      if IsTemplate(value) {
        var name := ParamName(value);
        if name !in params { return Err(UndeclaredParam(name)); }
        if name !in binds { return Err(UnboundParam(name)); }
        resolved := resolved[key := binds[name]];
      } else {
        resolved := resolved[key := value];
      }
    }
    assert resolved == ResolvedArgs(args, params, binds).value;
    r := Ok(Some(resolved));
  }

  // ---- compile time --------------------------------------------------------------------------

  predicate Satisfied(p: Precondition, params: set<string>, binds: Args, context: Context) {
    ArgsResolvable(p.args, params, binds) && EvalPredicate(p.name, ResolvedArgs(p.args, params, binds), context).Passes?
  }

  predicate AllSatisfied(ps: seq<Precondition>, params: set<string>, binds: Args, context: Context) {
    forall i :: 0 <= i < |ps| ==> Satisfied(ps[i], params, binds, context)
  }

  function Resolved(ps: seq<Precondition>, params: set<string>, binds: Args): seq<Precondition>
    requires forall i :: 0 <= i < |ps| ==> ArgsResolvable(ps[i].args, params, binds)
  {
    seq(|ps|, i requires 0 <= i < |ps| => Precondition(ps[i].name, ResolvedArgs(ps[i].args, params, binds)))
  }

  datatype PreconditionError =
    | ArgsUnresolved(error: ResolveError)
    | NotAnswered(name: string)
    | NotSatisfied(name: string)

  /** What each compile-time error says about the condition it stops at. */
  predicate CompileFault(p: Precondition, params: set<string>, binds: Args, context: Context, e: PreconditionError) {
    match e
    case ArgsUnresolved(UndeclaredParam(name)) => !ArgsResolvable(p.args, params, binds) && name !in params
    case ArgsUnresolved(UnboundParam(name)) =>
      !ArgsResolvable(p.args, params, binds) && name in params && name !in binds
    case NotAnswered(name) =>
      && name == p.name && ArgsResolvable(p.args, params, binds)
      && EvalPredicate(p.name, ResolvedArgs(p.args, params, binds), context).Unanswerable?
    case NotSatisfied(name) =>
      && name == p.name && ArgsResolvable(p.args, params, binds)
      && EvalPredicate(p.name, ResolvedArgs(p.args, params, binds), context).Fails?
  }

  /** The condition passes, and `emitted` is what it resolves to. */
  predicate EmittedAs(p: Precondition, params: set<string>, binds: Args, context: Context, emitted: Precondition) {
    && Satisfied(p, params, binds, context)
    && emitted == Precondition(p.name, ResolvedArgs(p.args, params, binds))
  }

  /** The loop body: resolve, evaluate, and keep the resolved condition. */
  method EvaluateOne(p: Precondition, params: set<string>, binds: Args, context: Context)
    returns (r: Result<Precondition, PreconditionError>)
    ensures r.Ok? <==> Satisfied(p, params, binds, context)
    ensures r.Ok? ==> EmittedAs(p, params, binds, context, r.value)
    ensures r.Err? ==> CompileFault(p, params, binds, context, r.error)
  {
    var args := ResolvePreconditionArgs(p.args, params, binds);
    if args.Err? { return Err(ArgsUnresolved(args.error)); }
    var outcome := EvalPredicate(p.name, args.value, context);
    if outcome.Fails? { return Err(NotSatisfied(p.name)); }
    if outcome.Unanswerable? { return Err(NotAnswered(p.name)); }
    r := Ok(Precondition(p.name, args.value));
  }

  /** Succeeds exactly when every precondition resolves and passes, returning the resolved conditions. */
  method EvaluatePreconditions(ps: seq<Precondition>, params: set<string>, binds: Args, context: Context)
    returns (r: Result<seq<Precondition>, PreconditionError>)
    ensures r.Ok? <==> AllSatisfied(ps, params, binds, context)
    ensures r.Err? ==> exists i :: 0 <= i < |ps| && CompileFault(ps[i], params, binds, context, r.error)
                                && forall j :: 0 <= j < i ==> Satisfied(ps[j], params, binds, context)
    ensures r.Ok? ==> r.value == Resolved(ps, params, binds)
  {
    var resolved: seq<Precondition> := [];
    var i := 0;
    while i < |ps|
      invariant 0 <= i <= |ps| && |resolved| == i
      invariant forall j :: 0 <= j < i ==> EmittedAs(ps[j], params, binds, context, resolved[j])
    {
      var condition := EvaluateOne(ps[i], params, binds, context);
      if condition.Err? {
        assert CompileFault(ps[i], params, binds, context, condition.error);
        return Err(condition.error);
      }
      resolved := resolved + [condition.value];
      i := i + 1;
    }
    r := Ok(resolved);
  }

  // ---- the document --------------------------------------------------------------------------

  /** A JSON field value, as far as the reader distinguishes them. */
  datatype Field = TextField(text: string) | ObjectField(members: Args) | OtherField

  datatype RawCondition = Record(fields: map<string, Field>) | NotARecord

  datatype RawConditions = Array(items: seq<RawCondition>) | NotAnArray

  function ConditionJson(p: Precondition): RawCondition {
    match p.args
    case None => Record(map["predicate" := TextField(p.name)])
    case Some(args) => Record(map["predicate" := TextField(p.name), "args" := ObjectField(args)])
  }

  function PreconditionJson(ps: seq<Precondition>): RawConditions {
    Array(seq(|ps|, i requires 0 <= i < |ps| => ConditionJson(ps[i])))
  }

  // ---- run time ------------------------------------------------------------------------------

  function Selector(name: string): Option<string> {
    if name == "metric_additive" then Some("metric")
    else if name == "model_has_timestamp" then Some("model")
    else None
  }

  predicate ArgAcceptable(name: string, key: string, value: Value) {
    && !IsTemplate(value)
    && (Selector(name) == Some(key) ==> value.Text? && !Blank(value.text))
  }

  predicate ArgsAcceptable(name: string, args: Option<Args>) {
    args.Some? ==> forall key :: key in args.value ==> ArgAcceptable(name, key, args.value[key])
  }

  /** The well-formed record a raw condition spells, if it is one. */
  function Parsed(raw: RawCondition): Option<Precondition> {
    if raw.NotARecord? || !(raw.fields.Keys <= {"predicate", "args"}) then None
    else if "predicate" !in raw.fields || !raw.fields["predicate"].TextField? then None
    else if raw.fields["predicate"].text !in VOCABULARY then None
    else if "args" !in raw.fields then Some(Precondition(raw.fields["predicate"].text, None))
    else if !raw.fields["args"].ObjectField? then None
    else Some(Precondition(raw.fields["predicate"].text, Some(raw.fields["args"].members)))
  }

  /** A raw condition reads as `p` exactly when it has those fields and no others, and a known name. */
  lemma {:induction false} ParsedExactly(raw: RawCondition, p: Precondition)
    ensures Parsed(raw) == Some(p) <==>
            && raw.Record? && (forall key :: key in raw.fields ==> key == "predicate" || key == "args")
            && "predicate" in raw.fields && raw.fields["predicate"] == TextField(p.name) && p.name in VOCABULARY
            && (if "args" in raw.fields then p.args.Some? && raw.fields["args"] == ObjectField(p.args.value)
                else p.args.None?)
  {
  }

  /** No argument may be a reference, and a metric or model selector must be a string that is not blank. */
  lemma {:induction false} AcceptableExactly(name: string, key: string, value: Value)
    ensures ArgAcceptable(name, key, value) <==>
            && !(exists x :: value == Text("$param:" + x))
            && ((name == "metric_additive" && key == "metric") || (name == "model_has_timestamp" && key == "model") ==>
                  value.Text? && exists c :: c in value.text && !Whitespace(c))
  {
    if IsTemplate(value) { assert value == Text("$param:" + ParamName(value)); }
    forall x | value == Text("$param:" + x) ensures PARAM_PREFIX <= value.text {
    }
    assert "metric_additive" != "model_has_timestamp" by { assert "metric_additive"[1] != "model_has_timestamp"[1]; }
    assert "metric" != "model" by { assert |"metric"| != |"model"|; }
  }

  predicate ConditionVerified(raw: RawCondition, context: Context) {
    && Parsed(raw).Some?
    && ArgsAcceptable(Parsed(raw).value.name, Parsed(raw).value.args)
    && EvalPredicate(Parsed(raw).value.name, Parsed(raw).value.args, context).Passes?
  }

  predicate ConditionsVerified(raw: RawConditions, context: Context) {
    raw.Array? && forall i :: 0 <= i < |raw.items| ==> ConditionVerified(raw.items[i], context)
  }

  datatype VerifyError =
    | Malformed | UnknownPredicate | Unresolved | BadSelector | PredicateFailed | PredicateUnanswerable

  /** What each run-time error says about the condition it stops at. */
  predicate VerifyFault(raw: RawCondition, context: Context, e: VerifyError) {
    match e
    case Malformed | UnknownPredicate => Parsed(raw).None?
    case Unresolved =>
      && Parsed(raw).Some? && Parsed(raw).value.args.Some?
      && exists key :: key in Parsed(raw).value.args.value && IsTemplate(Parsed(raw).value.args.value[key])
    case BadSelector =>
      && Parsed(raw).Some? && Parsed(raw).value.args.Some? && Selector(Parsed(raw).value.name).Some?
      && Selector(Parsed(raw).value.name).value in Parsed(raw).value.args.value
      && !ArgAcceptable(Parsed(raw).value.name, Selector(Parsed(raw).value.name).value,
                        Parsed(raw).value.args.value[Selector(Parsed(raw).value.name).value])
    case PredicateFailed =>
      Parsed(raw).Some? && EvalPredicate(Parsed(raw).value.name, Parsed(raw).value.args, context).Fails?
    case PredicateUnanswerable =>
      Parsed(raw).Some? && EvalPredicate(Parsed(raw).value.name, Parsed(raw).value.args, context).Unanswerable?
  }

  /** The loop over one condition's arguments, in hash-map order. */
  method CheckArgs(name: string, args: Option<Args>) returns (r: Option<VerifyError>)
    ensures r.None? <==> ArgsAcceptable(name, args)
    ensures r.Some? ==> args.Some? && (r.value.Unresolved? || r.value.BadSelector?)
    ensures r == Some(Unresolved) ==> exists key :: key in args.value && IsTemplate(args.value[key])
    ensures r == Some(BadSelector) ==>
              Selector(name).Some? && Selector(name).value in args.value
              && !ArgAcceptable(name, Selector(name).value, args.value[Selector(name).value])
  {
    if args.None? { return None; }
    var pending := args.value.Keys;
    while pending != {}
      invariant pending <= args.value.Keys
      invariant forall key :: key in args.value.Keys - pending ==> ArgAcceptable(name, key, args.value[key])
      decreases pending
    {
      var key :| key in pending;
      var value := args.value[key];
      if IsTemplate(value) { return Some(Unresolved); }
      if Selector(name) == Some(key) && (!value.Text? || Blank(value.text)) { return Some(BadSelector); }
      pending := pending - {key};
    }
    return None;
  }

  /** Accepts exactly the arrays of well-formed, resolved conditions that all pass on this context. */
  method VerifyContextPreconditions(raw: RawConditions, context: Context) returns (r: Option<VerifyError>)
    ensures r.None? <==> ConditionsVerified(raw, context)
    ensures r.Some? && raw.Array? ==>
              exists i :: 0 <= i < |raw.items| && VerifyFault(raw.items[i], context, r.value)
                       && forall j :: 0 <= j < i ==> ConditionVerified(raw.items[j], context)
  {
    if raw.NotAnArray? { return Some(Malformed); }
    var i := 0;
    while i < |raw.items|
      invariant 0 <= i <= |raw.items|
      invariant forall j :: 0 <= j < i ==> ConditionVerified(raw.items[j], context)
    {
      var item := raw.items[i];
      var parsed := Parsed(item);
      if parsed.None? {
        assert !ConditionVerified(raw.items[i], context);
        return Some(if item.Record? && item.fields.Keys <= {"predicate", "args"} then UnknownPredicate else Malformed);
      }
      var bad := CheckArgs(parsed.value.name, parsed.value.args);
      if bad.Some? {
        assert !ConditionVerified(raw.items[i], context);
        return bad;
      }
      var outcome := EvalPredicate(parsed.value.name, parsed.value.args, context);
      if !outcome.Passes? {
        assert !ConditionVerified(raw.items[i], context);
        return Some(if outcome.Fails? then PredicateFailed else PredicateUnanswerable);
      }
      i := i + 1;
    }
    return None;
  }

  // ---- the trip ------------------------------------------------------------------------------

  /** A predicate that passes is in the closed vocabulary, so no separate check can reject it later. */
  lemma {:induction false} PassIsKnown(name: string, args: Option<Args>, context: Context)
    requires EvalPredicate(name, args, context).Passes?
    ensures name in VOCABULARY
  {
  }

  /** Every condition passes somewhere. */
  const RICH := Context(true, [MetricInfo("m", true, Some(Additive))], 1, 1, [ModelInfo("m", true)], true, Some(true),
                        Some(true), (_: string) => true)

  /** And every name of the vocabulary can pass, so it holds no name the evaluator does not know. */
  lemma {:induction false} VocabularyCanPass(name: string)
    requires name in VOCABULARY
    ensures EvalPredicate(name, None, RICH).Passes?
  {
    assert RICH.models[0] in RICH.models && RICH.metrics[0] in RICH.metrics;
  }

  lemma {:induction false} ParsedIsInverse(p: Precondition)
    requires p.name in VOCABULARY
    ensures Parsed(ConditionJson(p)) == Some(p)
  {
    var raw := ConditionJson(p);
    assert raw.fields.Keys <= {"predicate", "args"};
    assert "predicate"[0] != "args"[0];
  }

  /**
   * Preconditions survive the trip from compiler to runtime: when the compiler accepted them, the
   * runtime accepts the resolved conditions it emitted, on the same context, if and only if no
   * resolved value is itself a `$param:` reference and every metric or model selector is a
   * non-blank string.
   */
  lemma {:induction false} PreconditionsSurviveTrip(ps: seq<Precondition>, params: set<string>, binds: Args,
                                                    context: Context)
    requires AllSatisfied(ps, params, binds, context)
    ensures ConditionsVerified(PreconditionJson(Resolved(ps, params, binds)), context)
       <==> forall i :: 0 <= i < |ps| ==> ArgsAcceptable(ps[i].name, ResolvedArgs(ps[i].args, params, binds))
  {
    var emitted := Resolved(ps, params, binds);
    var raw := PreconditionJson(emitted);
    forall i | 0 <= i < |ps|
      ensures ConditionVerified(raw.items[i], context)
         <==> ArgsAcceptable(ps[i].name, ResolvedArgs(ps[i].args, params, binds))
    {
      assert Satisfied(ps[i], params, binds, context);
      PassIsKnown(ps[i].name, ResolvedArgs(ps[i].args, params, binds), context);
      ParsedIsInverse(emitted[i]);
    }
    assert |raw.items| == |ps|;
  }

  /** Acceptance means every condition is well formed and passes, and would compile as it stands. */
  lemma {:induction false} AcceptanceMeansPass(raw: RawConditions, context: Context) returns (ps: seq<Precondition>)
    requires ConditionsVerified(raw, context)
    ensures |ps| == |raw.items| && forall i :: 0 <= i < |ps| ==> Parsed(raw.items[i]) == Some(ps[i])
    ensures AllSatisfied(ps, {}, map[], context) && Resolved(ps, {}, map[]) == ps
  {
    ps := seq(|raw.items|, i requires 0 <= i < |raw.items| =>
      if Parsed(raw.items[i]).Some? then Parsed(raw.items[i]).value else Precondition("", None));
    forall i | 0 <= i < |ps|
        ensures Parsed(raw.items[i]) == Some(ps[i]) && Satisfied(ps[i], {}, map[], context)
            && ResolvedArgs(ps[i].args, {}, map[]) == ps[i].args {
      assert ConditionVerified(raw.items[i], context);
      UnchangedWithoutTemplates(ps[i].args);
    }
  }

  lemma {:induction false} UnchangedWithoutTemplates(args: Option<Args>)
    requires args.Some? ==> forall key :: key in args.value ==> !IsTemplate(args.value[key])
    ensures ArgsResolvable(args, {}, map[]) && ResolvedArgs(args, {}, map[]) == args
  {
    if args.Some? { assert ResolvedArgs(args, {}, map[]).value == args.value; }
  }

  /**
   * The condition is needed: a model selector bound to a number compiles, because the compiler
   * falls back to asking whether any model has a timestamp, but the runtime refuses it.
   */
  lemma {:induction false} NonTextSelectorCompilesButIsRefused(context: Context, model: ModelInfo)
    requires context.canAnswer("model_has_timestamp") && model in context.models && model.hasTimestamp
    ensures var ps := [Precondition("model_has_timestamp", Some(map["model" := Text("$param:model")]))];
            var binds: Args := map["model" := NonText(7)];
            AllSatisfied(ps, {"model"}, binds, context)
            && !ConditionsVerified(PreconditionJson(Resolved(ps, {"model"}, binds)), context)
  {
    var ps := [Precondition("model_has_timestamp", Some(map["model" := Text("$param:model")]))];
    var binds: Args := map["model" := NonText(7)];
    assert "$param:model"[|PARAM_PREFIX|..] == "model";
    assert PARAM_PREFIX <= "$param:model";
    var resolved := ResolvedArgs(ps[0].args, {"model"}, binds);
    assert resolved.value == map["model" := NonText(7)];
    assert Satisfied(ps[0], {"model"}, binds, context);
    PreconditionsSurviveTrip(ps, {"model"}, binds, context);
    assert !ArgAcceptable("model_has_timestamp", "model", resolved.value["model"]);
  }
}
