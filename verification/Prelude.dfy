/** The failure-carrying datatypes the other modules share. */
module Prelude {

  datatype Option<+T> = None | Some(value: T)

  datatype Result<+T, +E> = Ok(value: T) | Err(error: E)

  datatype Outcome<+E> = Pass | Fail(error: E)

  function Min(a: int, b: int): int { if a <= b then a else b }

  function Max(a: int, b: int): int { if a <= b then b else a }

  /** The Unicode `White_Space` characters, those `str::trim` removes. */
  predicate Whitespace(c: char) {
    var n := c as int;
    9 <= n <= 13 || n in {0x20, 0x85, 0xA0, 0x1680, 0x2028, 0x2029, 0x202F, 0x205F, 0x3000} || 0x2000 <= n <= 0x200A
  }

  /** `trim().is_empty()`. */
  predicate Blank(s: string) { forall c :: c in s ==> Whitespace(c) }

  predicate Distinct<T(==)>(s: seq<T>) {
    forall i, j :: 0 <= i < j < |s| ==> s[i] != s[j]
  }

  /** The elements of a sequence, as a set. */
  function Elems<T>(s: seq<T>): set<T> { set x | x in s }

  /** The elements satisfying `keep`, in order: JavaScript's `filter`. */
  function Filter<T(!new)>(s: seq<T>, keep: T -> bool): (r: seq<T>)
    ensures forall x :: x in r <==> x in s && keep(x)
  {
    if s == [] then []
    else if keep(s[0]) then
      assert s == [s[0]] + s[1..];
      [s[0]] + Filter(s[1..], keep)
    else
      assert s == [s[0]] + s[1..];
      Filter(s[1..], keep)
  }

  lemma {:induction false} FilterConcat<T(!new)>(a: seq<T>, b: seq<T>, keep: T -> bool)
    ensures Filter(a + b, keep) == Filter(a, keep) + Filter(b, keep)
  {
    if a == [] {
      assert a + b == b;
    } else {
      assert (a + b)[0] == a[0] && (a + b)[1..] == a[1..] + b;
      FilterConcat(a[1..], b, keep);
    }
  }

  /** Two filters that agree on every element keep the same subsequence. */
  lemma {:induction false} FilterAgree<T(!new)>(s: seq<T>, keep: T -> bool, keep': T -> bool)
    requires forall x :: x in s ==> keep(x) == keep'(x)
    ensures Filter(s, keep) == Filter(s, keep')
  {
    if s != [] {
      assert s[0] in s && forall x :: x in s[1..] ==> x in s;
      FilterAgree(s[1..], keep, keep');
    }
  }

  /** Filtering twice, when the second filter is the finer one, is filtering once. */
  lemma {:induction false} FilterFilter<T(!new)>(s: seq<T>, keep: T -> bool, finer: T -> bool)
    requires forall x :: x in s && finer(x) ==> keep(x)
    ensures Filter(Filter(s, keep), finer) == Filter(s, finer)
  {
    if s != [] {
      assert s[0] in s && forall x :: x in s[1..] ==> x in s;
      FilterFilter(s[1..], keep, finer);
      if keep(s[0]) {
        assert Filter(s, keep)[0] == s[0] && Filter(s, keep)[1..] == Filter(s[1..], keep);
      }
    }
  }

  /** `r` is the elements of `s` at the given positions, which ascend. */
  predicate PicksAt<T(==)>(s: seq<T>, r: seq<T>, positions: seq<nat>) {
    && |positions| == |r|
    && (forall j, k :: 0 <= j < k < |positions| ==> positions[j] < positions[k])
    && forall k :: 0 <= k < |r| ==> positions[k] < |s| && s[positions[k]] == r[k]
  }

  /** One more element is picked last, or not at all. */
  lemma {:induction false} PicksSnoc<T>(s: seq<T>, r: seq<T>, positions: seq<nat>, x: T)
    requires PicksAt(s, r, positions)
    ensures PicksAt(s + [x], r, positions) && PicksAt(s + [x], r + [x], positions + [|s|])
  {
  }

  function Positions<T>(s: seq<T>, keep: T -> bool): seq<nat> {
    if s == [] then []
    else Positions(s[..|s| - 1], keep) + if keep(s[|s| - 1]) then [|s| - 1] else []
  }

  lemma {:induction false} PositionsPick<T(!new)>(s: seq<T>, keep: T -> bool)
    ensures PicksAt(s, Filter(s, keep), Positions(s, keep))
  {
    if s != [] {
      var init, x := s[..|s| - 1], s[|s| - 1];
      PositionsPick(init, keep);
      assert s == init + [x];
      FilterConcat(init, [x], keep);
      PicksSnoc(init, Filter(init, keep), Positions(init, keep), x);
    }
  }

  lemma {:induction false} PositionsExact<T>(s: seq<T>, keep: T -> bool)
    ensures forall i: nat :: i in Positions(s, keep) <==> i < |s| && keep(s[i])
  {
    if s != [] { PositionsExact(s[..|s| - 1], keep); }
  }

  /** A filter keeps exactly the positions whose element satisfies it, in order. */
  lemma {:induction false} FilterPicks<T(!new)>(s: seq<T>, keep: T -> bool) returns (positions: seq<nat>)
    ensures PicksAt(s, Filter(s, keep), positions)
    ensures forall i: nat :: i in positions <==> i < |s| && keep(s[i])
  {
    positions := Positions(s, keep);
    PositionsPick(s, keep);
    PositionsExact(s, keep);
  }
}
