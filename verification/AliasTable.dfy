/**
 * The runtime's alias table (dispatcher/claude-agent-sdk/src/componentInvocation.ts, `edgeByStep`): one map from a
 * joined key of caller and step to the aliases declared under it. The key joins two unrestricted names with U+0000,
 * so two caller steps may share it.
 */
module AliasTable {
  import opened Prelude
  import opened Declarations

  const NUL := '\0'

  function JoinedKey(caller: string, step: string): string { caller + [NUL] + step }

  /** The dependency is filed under the key of this caller step. */
  predicate FiledUnder(d: Dependency, caller: string, step: string) {
    JoinedKey(d.caller, d.step) == JoinedKey(caller, step)
  }

  /** The aliases a caller step looks up; a later declaration of an alias replaces an earlier one. */
  function AliasesFor(dependencies: seq<Dependency>, caller: string, step: string): map<string, string> {
    if dependencies == [] then map[]
    else
      var n := |dependencies| - 1;
      var table := AliasesFor(dependencies[..n], caller, step);
      var d := dependencies[n];
      if FiledUnder(d, caller, step) then table[d.alias := d.component] else table
  }

  /** The aliases a caller step declares itself. */
  function DeclaredFor(dependencies: seq<Dependency>, caller: string, step: string): map<string, string> {
    if dependencies == [] then map[]
    else
      var n := |dependencies| - 1;
      var table := DeclaredFor(dependencies[..n], caller, step);
      var d := dependencies[n];
      if d.caller == caller && d.step == step then table[d.alias := d.component] else table
  }

  // ---- what a lookup finds -------------------------------------------------------------------

  /** No later declaration under the same key replaces the `i`-th. */
  predicate Effective(dependencies: seq<Dependency>, i: nat)
    requires i < |dependencies|
  {
    forall j :: i < j < |dependencies| && FiledUnder(dependencies[j], dependencies[i].caller, dependencies[i].step) ==>
      dependencies[j].alias != dependencies[i].alias
  }

  /** A looked-up callee is that of some effective declaration under the key. */
  lemma {:induction false} LookedUpFrom(dependencies: seq<Dependency>, caller: string, step: string, alias: string)
    returns (i: nat)
    requires alias in AliasesFor(dependencies, caller, step)
    ensures i < |dependencies| && FiledUnder(dependencies[i], caller, step) && Effective(dependencies, i)
    ensures dependencies[i].alias == alias && dependencies[i].component == AliasesFor(dependencies, caller, step)[alias]
  {
    var n := |dependencies| - 1;
    if FiledUnder(dependencies[n], caller, step) && dependencies[n].alias == alias {
      i := n;
    } else {
      i := LookedUpFrom(dependencies[..n], caller, step, alias);
      assert forall j :: i < j < n ==> dependencies[..n][j] == dependencies[j];
    }
  }

  /** An effective declaration is what its key's lookup finds. */
  lemma {:induction false} EffectiveIsFound(dependencies: seq<Dependency>, caller: string, step: string, i: nat)
    requires i < |dependencies| && FiledUnder(dependencies[i], caller, step)
    requires Effective(dependencies, i)
    ensures dependencies[i].alias in AliasesFor(dependencies, caller, step)
    ensures AliasesFor(dependencies, caller, step)[dependencies[i].alias] == dependencies[i].component
    decreases |dependencies|
  {
    var n := |dependencies| - 1;
    if i < n {
      assert forall j :: i < j < n ==> dependencies[..n][j] == dependencies[j];
      EffectiveIsFound(dependencies[..n], caller, step, i);
    }
  }

  /** Every alias the step looks up is one of its own declarations. */
  predicate LooksUpOwn(dependencies: seq<Dependency>, caller: string, step: string) {
    forall alias :: alias in AliasesFor(dependencies, caller, step) ==>
      Dependency(caller, step, alias, AliasesFor(dependencies, caller, step)[alias]) in dependencies
  }

  /** Every effective declaration under the step's key is one the step makes itself, with the same callee. */
  predicate NoForeignAlias(dependencies: seq<Dependency>, caller: string, step: string) {
    forall i :: 0 <= i < |dependencies| && FiledUnder(dependencies[i], caller, step) && Effective(dependencies, i) ==>
      Dependency(caller, step, dependencies[i].alias, dependencies[i].component) in dependencies
  }

  lemma {:induction false} LooksUpOwnExactly(dependencies: seq<Dependency>, caller: string, step: string)
    ensures LooksUpOwn(dependencies, caller, step) <==> NoForeignAlias(dependencies, caller, step)
  {
    if NoForeignAlias(dependencies, caller, step) {
      forall alias | alias in AliasesFor(dependencies, caller, step)
        ensures Dependency(caller, step, alias, AliasesFor(dependencies, caller, step)[alias]) in dependencies
      {
        var i := LookedUpFrom(dependencies, caller, step, alias);
      }
    }
    if LooksUpOwn(dependencies, caller, step) {
      forall i | 0 <= i < |dependencies| && FiledUnder(dependencies[i], caller, step) && Effective(dependencies, i)
        ensures Dependency(caller, step, dependencies[i].alias, dependencies[i].component) in dependencies
      {
        EffectiveIsFound(dependencies, caller, step, i);
      }
    }
  }

  // ---- exactly the step's own declarations ---------------------------------------------------

  predicate SameCall(d: Dependency, d': Dependency) {
    d.caller == d'.caller && d.step == d'.step && d.alias == d'.alias
  }

  /** No step declares one alias for two callees. */
  predicate AliasesDistinct(dependencies: seq<Dependency>) {
    forall d, d' :: d in dependencies && d' in dependencies && SameCall(d, d') ==> d.component == d'.component
  }

  lemma {:induction false} DeclaredIsOwn(dependencies: seq<Dependency>, caller: string, step: string, alias: string)
    requires alias in DeclaredFor(dependencies, caller, step)
    ensures Dependency(caller, step, alias, DeclaredFor(dependencies, caller, step)[alias]) in dependencies
  {
    var n := |dependencies| - 1;
    var d := dependencies[n];
    assert d in dependencies;
    if !(d.caller == caller && d.step == step && d.alias == alias) {
      DeclaredIsOwn(dependencies[..n], caller, step, alias);
    }
  }

  lemma {:induction false} OwnIsDeclared(dependencies: seq<Dependency>, caller: string, step: string, i: nat)
    requires i < |dependencies| && dependencies[i].caller == caller && dependencies[i].step == step
    ensures dependencies[i].alias in DeclaredFor(dependencies, caller, step)
    ensures dependencies[i].alias in AliasesFor(dependencies, caller, step)
    decreases |dependencies|
  {
    if i < |dependencies| - 1 { OwnIsDeclared(dependencies[..|dependencies| - 1], caller, step, i); }
  }

  lemma {:induction false} SameAlias(dependencies: seq<Dependency>, caller: string, step: string, alias: string)
    requires AliasesDistinct(dependencies) && LooksUpOwn(dependencies, caller, step)
    ensures var found, declared := AliasesFor(dependencies, caller, step), DeclaredFor(dependencies, caller, step);
            (alias in found <==> alias in declared) && (alias in found ==> found[alias] == declared[alias])
  {
    var found, declared := AliasesFor(dependencies, caller, step), DeclaredFor(dependencies, caller, step);
    if alias in found {
      var own := Dependency(caller, step, alias, found[alias]);
      var i :| 0 <= i < |dependencies| && dependencies[i] == own;
      OwnIsDeclared(dependencies, caller, step, i);
      DeclaredIsOwn(dependencies, caller, step, alias);
      assert SameCall(own, Dependency(caller, step, alias, declared[alias]));
    } else if alias in declared {
      DeclaredIsOwn(dependencies, caller, step, alias);
      var i :| 0 <= i < |dependencies| && dependencies[i] == Dependency(caller, step, alias, declared[alias]);
      OwnIsDeclared(dependencies, caller, step, i);
      assert false;
    }
  }

  /** A step looks up exactly its own declarations if and only if nothing foreign takes effect under its key. */
  lemma {:induction false} LookupExact(dependencies: seq<Dependency>, caller: string, step: string)
    requires AliasesDistinct(dependencies)
    ensures AliasesFor(dependencies, caller, step) == DeclaredFor(dependencies, caller, step)
            <==> NoForeignAlias(dependencies, caller, step)
  {
    LooksUpOwnExactly(dependencies, caller, step);
    if LooksUpOwn(dependencies, caller, step) {
      forall alias: string
        ensures var found, declared := AliasesFor(dependencies, caller, step), DeclaredFor(dependencies, caller, step);
                (alias in found <==> alias in declared) && (alias in found ==> found[alias] == declared[alias])
      {
        SameAlias(dependencies, caller, step, alias);
      }
    }
    if AliasesFor(dependencies, caller, step) == DeclaredFor(dependencies, caller, step) {
      forall alias | alias in AliasesFor(dependencies, caller, step)
        ensures Dependency(caller, step, alias, AliasesFor(dependencies, caller, step)[alias]) in dependencies
      {
        DeclaredIsOwn(dependencies, caller, step, alias);
      }
    }
  }

  // ---- when keys cannot clash ----------------------------------------------------------------

  lemma {:induction false} JoinInjective(caller: string, step: string, caller': string, step': string)
    requires JoinedKey(caller, step) == JoinedKey(caller', step')
    requires (NUL !in caller && NUL !in caller') || (NUL !in step && NUL !in step')
    ensures caller == caller' && step == step'
  {
    var key := JoinedKey(caller, step);
    assert key[|caller|] == NUL && key[|caller'|] == NUL;
    assert forall i :: 0 <= i < |caller| ==> key[i] == caller[i];
    assert forall i :: 0 <= i < |caller'| ==> key[i] == caller'[i];
    assert forall i :: 0 <= i < |step| ==> key[|caller| + 1 + i] == step[i];
    assert forall i :: 0 <= i < |step'| ==> key[|caller'| + 1 + i] == step'[i];
    assert |caller| == |caller'|;
    assert caller == key[..|caller|] && caller' == key[..|caller|];
    assert step == key[|caller| + 1..] && step' == key[|caller| + 1..];
  }

  /** It is enough that no component id contains U+0000, or that no step name does. */
  lemma {:induction false} PlainNamesKeepApart(dependencies: seq<Dependency>, caller: string, step: string)
    requires || (NUL !in caller && forall d :: d in dependencies ==> NUL !in d.caller)
             || (NUL !in step && forall d :: d in dependencies ==> NUL !in d.step)
    ensures NoForeignAlias(dependencies, caller, step)
  {
    forall i | 0 <= i < |dependencies| && FiledUnder(dependencies[i], caller, step)
      ensures Dependency(caller, step, dependencies[i].alias, dependencies[i].component) in dependencies
    {
      var d := dependencies[i];
      assert d in dependencies;
      JoinInjective(d.caller, d.step, caller, step);
      assert d == Dependency(caller, step, d.alias, d.component);
    }
  }

  // ---- the table itself ----------------------------------------------------------------------

  type Table = map<string, map<string, string>>

  /** The table looked up as `edgeByStep.get(..) ?? new Map()`. */
  function Lookup(table: Table, caller: string, step: string): map<string, string> {
    if JoinedKey(caller, step) in table then table[JoinedKey(caller, step)] else map[]
  }

  ghost predicate Indexed(table: Table, dependencies: seq<Dependency>) {
    forall caller, step :: Lookup(table, caller, step) == AliasesFor(dependencies, caller, step)
  }

  /**
   * The constructor's loop over the dependencies: it fails exactly when a callee is not prepared, and otherwise
   * gives every caller step the aliases filed under its key, a later declaration winning.
   */
  method IndexEdges(dependencies: seq<Dependency>, prepared: set<string>) returns (r: Option<Table>)
    ensures r.Some? <==> forall d :: d in dependencies ==> d.component in prepared
    ensures r.Some? ==> Indexed(r.value, dependencies)
  {
    var table: Table := map[];
    var i := 0;
    while i < |dependencies|
      invariant 0 <= i <= |dependencies|
      invariant forall j :: 0 <= j < i ==> dependencies[j].component in prepared
      invariant Indexed(table, dependencies[..i])
    {
      var d := dependencies[i];
      if d.component !in prepared { return None; }
      var aliases := Lookup(table, d.caller, d.step);
      assert dependencies[..i + 1][..i] == dependencies[..i];
      table := table[JoinedKey(d.caller, d.step) := aliases[d.alias := d.component]];
      i := i + 1;
    }
    assert dependencies[..i] == dependencies;
    r := Some(table);
  }
}
