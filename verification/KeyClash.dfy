/**
 * When the runtime's joined alias keys can clash in a profile both checks accept
 * (dispatcher/claude-agent-sdk/src/componentInvocation.ts, the constructor and `aliasesFor`), and what follows.
 */
module KeyClash {
  import opened AliasTable
  import opened Prelude
  import opened Graphs
  import opened Profile
  import opened Composition
  import opened Closure
  import opened Declarations
  import opened ClosureProperties
  import opened CheckAgreement
  import opened StepChecks
  import opened StepExecution
  import opened Ledger
  import opened LedgerProperties
  import opened InvocationRuntime
  import opened ProfileRun

  // ---- the exact condition for a profile -----------------------------------------------------

  /** A declared call of the compiled document is that of one step of one mount. */
  lemma {:induction false} DeclaredAt(mounts: seq<Mount>, components: map<string, ComponentFile>, d: Dependency)
    returns (i: nat, s: nat, k: nat)
    requires Compilable(mounts, components) && d in AllDependencies(CompiledNodes(mounts, components))
    ensures i < |mounts| && s < |components[mounts[i].useId].steps|
    ensures k < |components[mounts[i].useId].steps[s].calls|
    ensures var step := components[mounts[i].useId].steps[s];
            d == Dependency(mounts[i].useId, step.name, step.calls[k].alias, step.calls[k].component)
  {
    var nodes := CompiledNodes(mounts, components);
    AllDependenciesMeaning(nodes, d);
    var n, step, c :| n in nodes && step in n.steps && c in step.calls
        && d == Dependency(n.id, step.name, c.alias, c.component);
    i :| 0 <= i < |nodes| && nodes[i] == n;
    s :| 0 <= s < |n.steps| && n.steps[s] == step;
    k :| 0 <= k < |step.calls| && step.calls[k] == c;
  }

  /** In an accepted profile no step declares one alias twice. */
  lemma {:induction false} AcceptedAliasesDistinct(mounts: seq<Mount>, components: map<string, ComponentFile>)
    requires Compilable(mounts, components) && ComposesSafely(mounts, components) && StepsAccepted(mounts, components)
    ensures AliasesDistinct(AllDependencies(CompiledNodes(mounts, components)))
  {
    var all := AllDependencies(CompiledNodes(mounts, components));
    forall d, d' | d in all && d' in all && SameCall(d, d') ensures d.component == d'.component {
      var i, s, k := DeclaredAt(mounts, components, d);
      var i', s', k' := DeclaredAt(mounts, components, d');
      assert UseIds(mounts)[i] == UseIds(mounts)[i'];
      var steps := components[mounts[i].useId].steps;
      NamesUnique(steps, s, s');
      assert MountOk(UseIds(mounts), mounts[i].useId, components);
      assert StepCallsOk(UseIds(mounts), mounts[i].useId, steps[s].calls);
      assert Aliases(steps[s].calls)[k] == Aliases(steps[s].calls)[k'];
    }
  }

  /**
   * In an accepted profile every prepared step looks up exactly its own declarations if and only if under no
   * prepared step's joined key a foreign declaration takes effect.
   */
  lemma {:induction false} LookupsExact(mounts: seq<Mount>, components: map<string, ComponentFile>, roots: seq<string>,
                                        root: string, limits: LimitsInput)
    requires Startable(mounts, components, roots, limits) && Planned(CompiledNodes(mounts, components), roots)
    ensures var cfg := RuntimeConfig(mounts, components, roots, root, limits);
            (forall key :: key in cfg.steps ==>
               AliasesFor(cfg.dependencies, key.0, key.1) == DeclaredFor(cfg.dependencies, key.0, key.1))
            <==> KeysApart(cfg)
  {
    var cfg := RuntimeConfig(mounts, components, roots, root, limits);
    AcceptedAliasesDistinct(mounts, components);
    forall key | key in cfg.steps
      ensures AliasesFor(cfg.dependencies, key.0, key.1) == DeclaredFor(cfg.dependencies, key.0, key.1)
              <==> NoForeignAlias(cfg.dependencies, key.0, key.1)
    {
      LookupExact(cfg.dependencies, key.0, key.1);
    }
  }

  /** The names the joined keys are made of cannot be split in two ways. */
  predicate PlainNames(mounts: seq<Mount>, components: map<string, ComponentFile>)
    requires Compilable(mounts, components)
  {
    || (forall i :: 0 <= i < |mounts| ==> NUL !in mounts[i].useId)
    || (forall i, s :: 0 <= i < |mounts| && 0 <= s < |components[mounts[i].useId].steps| ==>
          NUL !in components[mounts[i].useId].steps[s].name)
  }

  /** A prepared step is a step of some mount. */
  lemma {:induction false} PreparedAt(mounts: seq<Mount>, components: map<string, ComponentFile>, roots: seq<string>,
                                      key: (string, string)) returns (i: nat, s: nat)
    requires Compilable(mounts, components) && ComposesSafely(mounts, components)
    requires Planned(CompiledNodes(mounts, components), roots)
    requires RootsAreEntrypoints(CompiledNodes(mounts, components), roots)
    requires key in StepsOf(PreparedSteps(PlanOf(CompiledNodes(mounts, components), roots), components))
    ensures i < |mounts| && mounts[i].useId == key.0
    ensures s < |components[key.0].steps| && components[key.0].steps[s].name == key.1
  {
    var nodes := CompiledNodes(mounts, components);
    AcceptedProfileResolves(mounts, components, roots);
    PreparedIsMounted(nodes, roots);
    i :| 0 <= i < |nodes| && Ids(nodes)[i] == key.0;
    s :| 0 <= s < |components[key.0].steps| && components[key.0].steps[s].name == key.1;
  }

  /** With plain names, no declared call is filed under the key of another step. */
  lemma {:induction false} PlainNamesNeverClash(mounts: seq<Mount>, components: map<string, ComponentFile>,
                                                dependencies: seq<Dependency>, i: nat, s: nat)
    requires Compilable(mounts, components) && PlainNames(mounts, components)
    requires forall d :: d in dependencies ==> d in AllDependencies(CompiledNodes(mounts, components))
    requires i < |mounts| && s < |components[mounts[i].useId].steps|
    ensures NoForeignAlias(dependencies, mounts[i].useId, components[mounts[i].useId].steps[s].name)
  {
    if forall j :: 0 <= j < |mounts| ==> NUL !in mounts[j].useId {
      forall d | d in dependencies ensures NUL !in d.caller { var j, t, k := DeclaredAt(mounts, components, d); }
    } else {
      forall d | d in dependencies ensures NUL !in d.step { var j, t, k := DeclaredAt(mounts, components, d); }
    }
    PlainNamesKeepApart(dependencies, mounts[i].useId, components[mounts[i].useId].steps[s].name);
  }

  /** It is enough that no mount id contains U+0000, or that no step name does. */
  lemma {:induction false} PlainProfileKeepsApart(mounts: seq<Mount>, components: map<string, ComponentFile>,
                                                  roots: seq<string>, root: string, limits: LimitsInput)
    requires Startable(mounts, components, roots, limits) && Planned(CompiledNodes(mounts, components), roots)
    requires PlainNames(mounts, components)
    ensures KeysApart(RuntimeConfig(mounts, components, roots, root, limits))
  {
    var cfg := RuntimeConfig(mounts, components, roots, root, limits);
    forall key | key in cfg.steps ensures NoForeignAlias(cfg.dependencies, key.0, key.1) {
      var i, s := PreparedAt(mounts, components, roots, key);
      PlainNamesNeverClash(mounts, components, cfg.dependencies, i, s);
    }
  }

  // ---- when every mount is a root ------------------------------------------------------------

  lemma {:induction false} FilterAll<T(!new)>(s: seq<T>, keep: T -> bool)
    requires forall x :: x in s ==> keep(x)
    ensures Filter(s, keep) == s
  {
    if s != [] {
      assert s[0] in s && forall x :: x in s[1..] ==> x in s;
      FilterAll(s[1..], keep);
    }
  }

  /** With every mount requested, the runtime gets every declared call and every step. */
  lemma {:induction false} WholePlan(mounts: seq<Mount>, components: map<string, ComponentFile>, root: string,
                                     limits: LimitsInput, i: nat, s: nat)
    requires Startable(mounts, components, UseIds(mounts), limits)
    requires Planned(CompiledNodes(mounts, components), UseIds(mounts))
    requires i < |mounts| && s < |components[mounts[i].useId].steps|
    ensures var cfg := RuntimeConfig(mounts, components, UseIds(mounts), root, limits);
            && cfg.dependencies == AllDependencies(CompiledNodes(mounts, components))
            && (mounts[i].useId, components[mounts[i].useId].steps[s].name) in cfg.steps
  {
    var nodes, roots := CompiledNodes(mounts, components), UseIds(mounts);
    AcceptedProfileResolves(mounts, components, roots);
    var plan := PlanOf(nodes, roots);
    PlanIsExact(nodes, roots);
    PlanIsEdgeClosed(nodes, roots);
    forall d | d in AllDependencies(nodes) ensures d.caller in UnionOf(plan.entries) {
      var j, t, k := DeclaredAt(mounts, components, d);
      assert roots[j] == d.caller;
      ReachesSelf(DependencyEdges(AllDependencies(nodes)), roots[j]);
    }
    FilterAll(AllDependencies(nodes), (d: Dependency) => d.caller in UnionOf(plan.entries));
    PreparedIsMounted(nodes, roots);
    assert roots[i] in PreparedSteps(plan, components);
  }

  // ---- an accepted profile with a clash ------------------------------------------------------

  const CLASH_FILES: map<string, ComponentFile> := map[
    "a" := ComponentFile("a", [], [LlmStep("b\0c", [], None, false, None, [ComponentCall("x", "p")])]),
    "a\0b" := ComponentFile("a\0b", [], [LlmStep("c", [], None, false, None, [ComponentCall("y", "q")])]),
    "p" := ComponentFile("p", [], [LlmStep("s", [], None, false, None, [])]),
    "q" := ComponentFile("q", [], [LlmStep("s", [], None, false, None, [ComponentCall("z", "a")])])
  ]

  const CLASH_IDS: seq<string> := ["a", "a\0b", "p", "q"]

  const CLASH_MOUNTS: seq<Mount> := [Mount("a", true), Mount("a\0b", true), Mount("p", true), Mount("q", true)]

  const CLASH_CALLS: seq<Dependency> := [
    Dependency("a", "b\0c", "x", "p"), Dependency("a\0b", "c", "y", "q"), Dependency("q", "s", "z", "a")
  ]

  const NO_LIMITS := LimitsInput(None, None, None, None, None, None, None, None)

  lemma {:induction false} ClashIdsDiffer()
    ensures "a" != "a\0b" && "a" != "p" && "a" != "q" && "a\0b" != "p" && "a\0b" != "q" && "p" != "q"
  {
    assert "a"[0] == 'a' && "p"[0] == 'p' && "q"[0] == 'q';
    assert |"a"| == 1 && |"a\0b"| == 3;
  }

  lemma {:induction false} ClashCompiles()
    ensures Compilable(CLASH_MOUNTS, CLASH_FILES) && FiledById(CLASH_FILES)
    ensures UseIds(CLASH_MOUNTS) == CLASH_IDS == Ids(CompiledNodes(CLASH_MOUNTS, CLASH_FILES))
    ensures RootsAreEntrypoints(CompiledNodes(CLASH_MOUNTS, CLASH_FILES), CLASH_IDS)
  {
    ClashIdsDiffer();
    var nodes := CompiledNodes(CLASH_MOUNTS, CLASH_FILES);
    forall i | 0 <= i < |CLASH_IDS| ensures EntrypointId(nodes, CLASH_IDS[i]) {
      assert nodes[i].id == CLASH_IDS[i] && nodes[i].entrypoint;
    }
  }

  lemma {:induction false} ClashCalls()
    ensures Compilable(CLASH_MOUNTS, CLASH_FILES)
    ensures AllDependencies(CompiledNodes(CLASH_MOUNTS, CLASH_FILES)) == CLASH_CALLS
  {
    ClashCompiles();
    ClashIdsDiffer();
    var nodes := CompiledNodes(CLASH_MOUNTS, CLASH_FILES);
    OneStepDependencies(nodes[0].id, nodes[0].steps);
    OneStepDependencies(nodes[1].id, nodes[1].steps);
    OneStepDependencies(nodes[2].id, nodes[2].steps);
    OneStepDependencies(nodes[3].id, nodes[3].steps);
    assert nodes[1..][1..] == nodes[2..] && nodes[2..][1..] == nodes[3..] && nodes[3..][1..] == [];
    assert AllDependencies(nodes[3..]) == CLASH_CALLS[2..];
    assert AllDependencies(nodes[2..]) == CLASH_CALLS[2..];
    assert AllDependencies(nodes[1..]) == CLASH_CALLS[1..];
  }

  lemma {:induction false} OneStepDependencies(caller: string, steps: seq<LlmStep>)
    requires |steps| == 1
    ensures StepDependencies(caller, steps) == CallDependencies(caller, steps[0].name, steps[0].calls)
  {
    assert steps[1..] == [];
  }

  lemma {:induction false} ClashAcyclic()
    ensures Acyclic(DependencyEdges(CLASH_CALLS))
  {
    ClashIdsDiffer();
    var E := DependencyEdges(CLASH_CALLS);
    forall a, b | (a, b) in E ensures (a, b) in {("a", "p"), ("a\0b", "q"), ("q", "a")} {
      var d :| d in CLASH_CALLS && (d.caller, d.component) == (a, b);
    }
    FinishNode(E, {}, "p");
    FinishNode(E, {"p"}, "a");
    FinishNode(E, {"p", "a"}, "q");
    FinishNode(E, {"p", "a", "q"}, "a\0b");
    AllFinished(E, {"p", "a", "q", "a\0b"});
  }

  lemma {:induction false} PlainStepAccepted(ids: seq<string>, caller: string, name: string, calls: seq<ComponentCall>)
    requires |calls| <= 1 && forall k :: 0 <= k < |calls| ==> CallOk(ids, caller, calls[k])
    ensures StepsOk(ids, caller, [LlmStep(name, [], None, false, None, calls)])
    ensures Accepted([LlmStep(name, [], None, false, None, calls)])
  {
  }

  lemma {:induction false} ClashCallsOk()
    ensures CallOk(CLASH_IDS, "a", ComponentCall("x", "p"))
    ensures CallOk(CLASH_IDS, "a\0b", ComponentCall("y", "q"))
    ensures CallOk(CLASH_IDS, "q", ComponentCall("z", "a"))
  {
    ClashIdsDiffer();
    assert CLASH_IDS[0] in CLASH_IDS && CLASH_IDS[2] in CLASH_IDS && CLASH_IDS[3] in CLASH_IDS;
  }

  lemma {:induction false} ClashMountsOk()
    ensures forall i :: 0 <= i < 4 ==> && CLASH_IDS[i] in CLASH_FILES
                                       && StepsOk(CLASH_IDS, CLASH_IDS[i], CLASH_FILES[CLASH_IDS[i]].steps)
                                       && Accepted(CLASH_FILES[CLASH_IDS[i]].steps)
  {
    ClashIdsDiffer();
    ClashCallsOk();
    PlainStepAccepted(CLASH_IDS, "a", "b\0c", [ComponentCall("x", "p")]);
    PlainStepAccepted(CLASH_IDS, "a\0b", "c", [ComponentCall("y", "q")]);
    PlainStepAccepted(CLASH_IDS, "p", "s", []);
    PlainStepAccepted(CLASH_IDS, "q", "s", [ComponentCall("z", "a")]);
  }

  /** The compiler and the dispatcher accept the profile. */
  lemma {:induction false} ClashAccepted()
    ensures Startable(CLASH_MOUNTS, CLASH_FILES, CLASH_IDS, NO_LIMITS)
  {
    ClashCompiles();
    ClashCalls();
    ClashAcyclic();
    ClashIdsDistinct();
    ClashMountsAccepted();
    SameGraph(CLASH_MOUNTS, CLASH_FILES);
  }

  lemma {:induction false} ClashIdsDistinct()
    ensures Distinct(UseIds(CLASH_MOUNTS))
  {
    ClashCompiles();
    ClashIdsDiffer();
  }

  lemma {:induction false} ClashMountsAccepted()
    ensures CallsOk(CLASH_MOUNTS, CLASH_FILES) && StepsAccepted(CLASH_MOUNTS, CLASH_FILES)
  {
    ClashCompiles();
    ClashMountsOk();
    MountsAccepted(CLASH_MOUNTS, CLASH_FILES, CLASH_IDS);
  }

  lemma {:induction false} MountsAccepted(mounts: seq<Mount>, components: map<string, ComponentFile>, ids: seq<string>)
    requires UseIds(mounts) == ids
    requires forall i :: 0 <= i < |ids| ==>
        && ids[i] in components && StepsOk(ids, ids[i], components[ids[i]].steps)
        && Accepted(components[ids[i]].steps)
    ensures CallsOk(mounts, components) && StepsAccepted(mounts, components)
  {
    assert forall i :: 0 <= i < |mounts| ==> mounts[i].useId == ids[i];
  }

  lemma {:induction false} ClashConfig()
    requires Startable(CLASH_MOUNTS, CLASH_FILES, CLASH_IDS, NO_LIMITS)
    requires Planned(CompiledNodes(CLASH_MOUNTS, CLASH_FILES), CLASH_IDS)
    ensures var cfg := RuntimeConfig(CLASH_MOUNTS, CLASH_FILES, CLASH_IDS, "a", NO_LIMITS);
            && cfg.limits == DEFAULTS && cfg.dependencies == CLASH_CALLS && cfg.root == "a"
            && ("a", "b\0c") in cfg.steps && ("q", "s") in cfg.steps
  {
    ClashCompiles();
    ClashCalls();
    WholePlan(CLASH_MOUNTS, CLASH_FILES, "a", NO_LIMITS, 0, 0);
    WholePlan(CLASH_MOUNTS, CLASH_FILES, "a", NO_LIMITS, 3, 0);
    ClashSteps();
  }

  lemma {:induction false} ClashSteps()
    ensures CLASH_MOUNTS[0].useId == "a" && CLASH_FILES["a"].steps[0].name == "b\0c"
    ensures CLASH_MOUNTS[3].useId == "q" && CLASH_FILES["q"].steps[0].name == "s"
  {
    ClashIdsDiffer();
  }

  /** Both steps share one key, so the step of `a` is offered the alias that `a\0b` declares for `q`. */
  lemma {:induction false} ClashLookup()
    ensures "y" in AliasesFor(CLASH_CALLS, "a", "b\0c") && AliasesFor(CLASH_CALLS, "a", "b\0c")["y"] == "q"
    ensures Dependency("a", "b\0c", "y", "q") !in CLASH_CALLS
    ensures "z" in AliasesFor(CLASH_CALLS, "q", "s") && AliasesFor(CLASH_CALLS, "q", "s")["z"] == "a"
    ensures !NoForeignAlias(CLASH_CALLS, "a", "b\0c")
  {
    ClashIdsDiffer();
    assert JoinedKey("a", "b\0c") == JoinedKey("a\0b", "c");
    assert JoinedKey("q", "s")[0] == 'q' && JoinedKey("a", "b\0c")[0] == 'a';
    assert "x"[0] == 'x' && "y"[0] == 'y' && "z"[0] == 'z';
    assert Effective(CLASH_CALLS, 1) && Effective(CLASH_CALLS, 2);
    EffectiveIsFound(CLASH_CALLS, "a", "b\0c", 1);
    EffectiveIsFound(CLASH_CALLS, "q", "s", 2);
  }

  /**
   * Both checks accept the profile and its call graph is acyclic, yet its first run can enter a call no step
   * declares in the trace, and then be cancelled as a re-entry by a declared call.
   */
  lemma {:induction false} ClashExample() returns (cfg: Config, first: Event, second: Event)
    ensures Startable(CLASH_MOUNTS, CLASH_FILES, CLASH_IDS, NO_LIMITS)
    ensures Planned(CompiledNodes(CLASH_MOUNTS, CLASH_FILES), CLASH_IDS)
    ensures cfg == RuntimeConfig(CLASH_MOUNTS, CLASH_FILES, CLASH_IDS, "a", NO_LIMITS)
    ensures Acyclic(DependencyEdges(cfg.dependencies)) && !KeysApart(cfg)
    ensures Dependency("a", "b\0c", "y", "q") !in cfg.dependencies
    ensures first.InvokeEvent? && first.step == "b\0c" && first.alias == "y"
    ensures !TraceOk(cfg, After(cfg, Initial(cfg, 0), [first])) && !NeverReenters(cfg, 0, [first, second])
  {
    ClashAccepted();
    ClashCompiles();
    AcceptedProfileRunsAcyclic(CLASH_MOUNTS, CLASH_FILES, CLASH_IDS);
    ClashConfig();
    ClashAcyclic();
    ClashLookup();
    ClashIdsDiffer();
    cfg := RuntimeConfig(CLASH_MOUNTS, CLASH_FILES, CLASH_IDS, "a", NO_LIMITS);
    assert !NoForeignAlias(cfg.dependencies, ("a", "b\0c").0, ("a", "b\0c").1);
    first, second := ClashRun(cfg);
  }

  lemma {:induction false} ClashRun(cfg: Config) returns (first: Event, second: Event)
    requires cfg.limits == DEFAULTS && cfg.dependencies == CLASH_CALLS && cfg.root == "a"
    requires ("a", "b\0c") in cfg.steps && ("q", "s") in cfg.steps
    ensures first.InvokeEvent? && first.step == "b\0c" && first.alias == "y"
    ensures !TraceOk(cfg, After(cfg, Initial(cfg, 0), [first])) && !NeverReenters(cfg, 0, [first, second])
  {
    ClashLookup();
    ClashIdsDiffer();
    var s0 := Initial(cfg, 0);
    first := InvokeEvent(0, Frame("a", None, ["a"], 0, None), "b\0c", "y", true, 0);
    second := InvokeEvent(0, Frame("q", Some(0), ["a", "q"], 1, Some(0)), "s", "z", true, 0);
    assert [first][..0] == [] && [first, second][..1] == [first];
    assert After(cfg, s0, [first][..0]) == s0;
    var s1 := After(cfg, s0, [first]);
    assert s1 == Apply(cfg, s0, first).0;
    assert s1.calls == [CallEntry(None, "a", "b\0c", "y", "q", 1, 1, 0)];
    assert !EntryOk(cfg, s1.calls, 0);
    assert Ancestry("a", s1.calls, 0) == ["a", "q"];
    assert Enabled(cfg, s1, second);
    assert "a" in second.frame.ancestry by { assert second.frame.ancestry[0] == "a"; }
    assert SecurityFailure(cfg, After(cfg, s0, [first, second][..1]), [first, second][1]);
  }
}
