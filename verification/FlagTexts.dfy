/**
 * Which flags one text can set at once (dispatcher/claude-agent-sdk/src/conditional.ts, `readFlag`), for a parser
 * that reads every document: decided on the dotted paths alone.
 */
module FlagTexts {
  import opened Prelude
  import opened Profile
  import opened Conditional
  import opened StepReachability

  ghost predicate Written(parse: Parser, value: Json) { exists text :: parse(text) == Some(value) }

  /** Every document has a text, as it does in JSON. */
  ghost predicate ReadsEverything(parse: Parser) { forall value: Json :: Written(parse, value) }

  predicate HasFlag(steps: seq<LlmStep>, i: nat)
    requires i < |steps|
  {
    steps[i].when.Some? && steps[i].when.value.guard.OnFlag?
  }

  function FlagPath(steps: seq<LlmStep>, i: nat): seq<string>
    requires i < |steps| && HasFlag(steps, i)
  {
    TailSegments(steps[i].when.value.target)
  }

  /** Flags of one path are set together, and no path that is set leads on from another that is. */
  predicate Consistent(steps: seq<LlmStep>, flags: set<nat>) {
    && (forall i :: i in flags ==> i < |steps| && HasFlag(steps, i))
    && (forall i: nat, j: nat ::
          i in flags && j < |steps| && HasFlag(steps, j) && FlagPath(steps, i) == FlagPath(steps, j) ==> j in flags)
    && (forall i: nat, j: nat :: i in flags && j in flags ==> !(FlagPath(steps, i) < FlagPath(steps, j)))
  }

  /** Nothing lies beyond a path that ends at true. */
  lemma {:induction false} TrueIsLeaf(value: Option<Json>, path: seq<string>, longer: seq<string>)
    requires FlagAt(value, path) && path < longer
    ensures !FlagAt(value, longer)
    decreases |path|
  {
    if path == [] {
      AbsentIsFalse(longer[1..]);
    } else {
      TrueIsLeaf(Field(value, path[0]), path[1..], longer[1..]);
    }
  }

  // ---- a document that sets exactly the given paths ------------------------------------------

  function Rest(paths: set<seq<string>>, key: string): set<seq<string>> {
    set p | p in paths && p != [] && p[0] == key :: p[1..]
  }

  ghost predicate PrefixFree(paths: set<seq<string>>) {
    forall p, p' :: p in paths && p' in paths ==> !(p < p')
  }

  lemma {:induction false} RestPrefixFree(paths: set<seq<string>>, key: string)
    requires PrefixFree(paths)
    ensures PrefixFree(Rest(paths, key))
  {
    forall p, p' | p in Rest(paths, key) && p' in Rest(paths, key) ensures !(p < p') {
      var q :| q in paths && q != [] && q[0] == key && q[1..] == p;
      var q' :| q' in paths && q' != [] && q'[0] == key && q'[1..] == p';
      assert q == [key] + p && q' == [key] + p';
    }
  }

  lemma {:induction false} InRest(paths: set<seq<string>>, path: seq<string>)
    requires path != []
    ensures path[1..] in Rest(paths, path[0]) <==> path in paths
  {
    if path[1..] in Rest(paths, path[0]) {
      var p :| p in paths && p != [] && p[0] == path[0] && p[1..] == path[1..];
      assert p == [p[0]] + p[1..] && path == [path[0]] + path[1..];
    }
  }

  lemma {:induction false} RestNonEmpty(paths: set<seq<string>>, key: string)
    ensures Rest(paths, key) != {} <==> exists p :: p in paths && p != [] && p[0] == key
  {
    if p :| p in paths && p != [] && p[0] == key { assert p[1..] in Rest(paths, key); }
    if p :| p in Rest(paths, key) { }
  }

  ghost predicate Fits(paths: set<seq<string>>, depth: nat) {
    PrefixFree(paths) && forall p :: p in paths ==> |p| <= depth
  }

  lemma {:induction false} RestFits(paths: set<seq<string>>, depth: nat, key: string)
    requires Fits(paths, depth) && depth > 0
    ensures Fits(Rest(paths, key), depth - 1)
  {
    RestPrefixFree(paths, key);
  }

  /** Exactly the given paths lead to true. */
  ghost predicate Sets(value: Option<Json>, paths: set<seq<string>>) {
    forall path :: FlagAt(value, path) <==> path in paths
  }

  lemma {:induction false} AbsentSets()
    ensures Sets(None, {})
  {
    forall path ensures !FlagAt(None, path) { AbsentIsFalse(path); }
  }

  lemma {:induction false} LeafSets(paths: set<seq<string>>)
    requires PrefixFree(paths) && [] in paths
    ensures Sets(Some(JTrue), paths)
  {
    forall path ensures FlagAt(Some(JTrue), path) <==> path in paths {
      if path != [] {
        assert [] < path;
        AbsentIsFalse(path[1..]);
      }
    }
  }

  lemma {:induction false} FieldsSet(value: Option<Json>, paths: set<seq<string>>)
    requires value != Some(JTrue) && [] !in paths && forall key :: Sets(Field(value, key), Rest(paths, key))
    ensures Sets(value, paths)
  {
    forall path ensures FlagAt(value, path) <==> path in paths {
      if path != [] {
        InRest(paths, path);
        assert Sets(Field(value, path[0]), Rest(paths, path[0]));
        assert FlagAt(value, path) == FlagAt(Field(value, path[0]), path[1..]);
      }
    }
  }

  lemma {:induction false} WriteFields(paths: set<seq<string>>, depth: nat, keys: set<string>)
    returns (fields: map<string, Json>)
    requires Fits(paths, depth) && (keys != {} ==> depth > 0)
    ensures fields.Keys == keys && forall key :: key in keys ==> Sets(Some(fields[key]), Rest(paths, key))
    decreases depth, |keys|
  {
    if keys == {} {
      fields := map[];
    } else {
      var key :| key in keys;
      RestFits(paths, depth, key);
      var field := WriteDocument(Rest(paths, key), depth - 1);
      var others := WriteFields(paths, depth, keys - {key});
      fields := others[key := field];
    }
  }

  /** A document that sets exactly the given paths. */
  lemma {:induction false} WriteDocument(paths: set<seq<string>>, depth: nat) returns (document: Json)
    requires Fits(paths, depth)
    ensures Sets(Some(document), paths)
    decreases depth + 1, 0
  {
    if [] in paths {
      document := JTrue;
      LeafSets(paths);
    } else {
      var heads := set p | p in paths && p != [] :: p[0];
      var fields := WriteFields(paths, depth, heads);
      document := JObject(fields);
      AbsentSets();
      forall key ensures Sets(Field(Some(document), key), Rest(paths, key)) {
        RestNonEmpty(paths, key);
        if key !in heads { assert Rest(paths, key) == {} && Field(Some(document), key) == None; }
      }
      FieldsSet(Some(document), paths);
    }
  }

  function PathsOf(steps: seq<LlmStep>, flags: set<nat>): set<seq<string>>
    requires Consistent(steps, flags)
  {
    set i | i in flags :: FlagPath(steps, i)
  }

  /** The longest flag path. */
  function Depth(steps: seq<LlmStep>): (n: nat)
    ensures forall i: nat :: i < |steps| && HasFlag(steps, i) ==> |FlagPath(steps, i)| <= n
  {
    if steps == [] then 0
    else
      var last := |steps| - 1;
      assert forall i: nat :: i < last && HasFlag(steps, i) ==>
          HasFlag(steps[..last], i) && FlagPath(steps, i) == FlagPath(steps[..last], i);
      Max(Depth(steps[..last]), if HasFlag(steps, last) then |FlagPath(steps, last)| else 0)
  }

  lemma {:induction false} ConsistentIsWritten(steps: seq<LlmStep>, parse: Parser, flags: set<nat>)
    returns (text: string)
    requires ReadsEverything(parse) && Consistent(steps, flags)
    ensures FlagsSet(steps, parse, text) == flags
  {
    var paths := PathsOf(steps, flags);
    forall p, p' | p in paths && p' in paths ensures !(p < p') {
      var i :| i in flags && FlagPath(steps, i) == p;
      var j :| j in flags && FlagPath(steps, j) == p';
    }
    var document := WriteDocument(paths, Depth(steps));
    assert Written(parse, document);
    text :| parse(text) == Some(document);
    assert forall i: nat :: i < |steps| && HasFlag(steps, i) ==>
        (FlagAt(parse(text), FlagPath(steps, i)) <==> i in flags);
  }

  /** A set of flags is set by some text if and only if it is consistent. */
  lemma {:induction false} FlagsSetExactly(steps: seq<LlmStep>, parse: Parser, flags: set<nat>)
    requires ReadsEverything(parse)
    ensures (exists text :: FlagsSet(steps, parse, text) == flags) <==> Consistent(steps, flags)
  {
    if Consistent(steps, flags) { var text := ConsistentIsWritten(steps, parse, flags); }
    if text :| FlagsSet(steps, parse, text) == flags {
      forall i: nat, j: nat | i in flags && j in flags ensures !(FlagPath(steps, i) < FlagPath(steps, j)) {
        if FlagPath(steps, i) < FlagPath(steps, j) {
          TrueIsLeaf(parse(text), FlagPath(steps, i), FlagPath(steps, j));
        }
      }
    }
  }

  /** What a step may leave: a bounded text if it fails, and any consistent set of flags if it does not. */
  ghost predicate MayLeave(steps: seq<LlmStep>, parse: Parser, bounded: string -> bool, c: Choice, j: nat)
    requires j < |c.sets|
  {
    if j in c.fails then exists text :: bounded(text) && FlagsSet(steps, parse, text) == c.sets[j]
    else Consistent(steps, c.sets[j])
  }

  /** So possible choices are decided on the paths, but for the texts of failed steps. */
  lemma {:induction false} PossibleExactly(steps: seq<LlmStep>, parse: Parser, bounded: string -> bool, c: Choice)
    requires ReadsEverything(parse)
    ensures Possible(steps, parse, bounded, c) <==>
            && |c.sets| == |steps| && (forall f :: f in c.fails ==> f < |steps| && Tolerable(steps, f))
            && forall j: nat :: j < |steps| ==> MayLeave(steps, parse, bounded, c, j)
  {
    forall j: nat | j < |c.sets|
      ensures Writable(steps, parse, bounded, c, j) <==> MayLeave(steps, parse, bounded, c, j)
    {
      FlagsSetExactly(steps, parse, c.sets[j]);
    }
  }
}
