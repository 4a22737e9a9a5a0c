/** Sequences produced one element per step by a numbered generator: the
    shape of a loop that sends request `i`, then `i + 1`, and so on. */
module Traces {

  /** `s` is `gen(i), gen(i + 1), …, gen(i + |s| - 1)`. */
  predicate Follows<T(==)>(gen: nat -> T, i: nat, s: seq<T>)
    decreases |s|
  {
    s != [] ==> s[0] == gen(i) && Follows(gen, i + 1, s[1..])
  }

  /** Putting the element of step `i` in front of what follows from `i + 1`. */
  lemma FollowsCons<T>(gen: nat -> T, i: nat, x: T, rest: seq<T>)
    requires x == gen(i) && Follows(gen, i + 1, rest)
    ensures Follows(gen, i, [x] + rest)
  {
    assert ([x] + rest)[0] == x && ([x] + rest)[1..] == rest;
  }

  /** Element `k` is the one of step `i + k`. */
  lemma {:induction false} FollowsAt<T>(gen: nat -> T, i: nat, s: seq<T>, k: nat)
    requires Follows(gen, i, s)
    requires k < |s|
    ensures s[k] == gen(i + k)
    decreases k
  {
    if k > 0 {
      var rest := s[1..];
      FollowsAt(gen, i + 1, rest, k - 1);
      assert s[k] == rest[k - 1];
    }
  }

  /** How far the counter has moved after the elements of `s`. */
  function Used<T>(size: T -> nat, s: seq<T>): nat
    decreases |s|
  {
    if s == [] then 0 else size(s[0]) + Used(size, s[1..])
  }

  /** The state element `k` starts from: `start`, then what the previous
      element handed on. */
  function StateAt<S, T>(next: T -> S, start: S, s: seq<T>, k: nat): S
    requires k <= |s|
  {
    if k == 0 then start else next(s[k - 1])
  }

  /** `s` is a loop whose steps each take the counter and the state the
      previous step handed on: element 0 is `step(n, start)`, element 1 is
      `step(n + size(s[0]), next(s[0]))`, and so on. */
  predicate Chained<S, T(==)>(step: (nat, S) -> T, size: T -> nat, next: T -> S, n: nat, start: S, s: seq<T>)
    decreases |s|
  {
    s != [] ==> s[0] == step(n, start) && Chained(step, size, next, n + size(s[0]), next(s[0]), s[1..])
  }

  /** Putting a step in front of the steps that go on from it. */
  lemma ChainedCons<S, T>(step: (nat, S) -> T, size: T -> nat, next: T -> S, n: nat, start: S, x: T, rest: seq<T>)
    requires x == step(n, start) && Chained(step, size, next, n + size(x), next(x), rest)
    ensures Chained(step, size, next, n, start, [x] + rest)
  {
    assert ([x] + rest)[0] == x && ([x] + rest)[1..] == rest;
  }

  lemma UsedConsPrefix<T>(size: T -> nat, x: T, rest: seq<T>, k: nat)
    requires 1 <= k <= |rest| + 1
    ensures Used(size, ([x] + rest)[..k]) == size(x) + Used(size, rest[..k - 1])
  {
    var p := ([x] + rest)[..k];
    assert p[0] == x;
    assert p[1..] == rest[..k - 1];
  }

  /** Element `k` is the step taken at the counter the earlier elements
      left and with the state element `k - 1` handed on. */
  lemma {:induction false} ChainedAt<S, T>(step: (nat, S) -> T, size: T -> nat, next: T -> S, n: nat, start: S,
                                           s: seq<T>, k: nat)
    requires Chained(step, size, next, n, start, s)
    requires k < |s|
    ensures s[k] == step(n + Used(size, s[..k]), StateAt(next, start, s, k))
    decreases k
  {
    if k == 0 {
      assert s[..0] == [];
    } else {
      var x := s[0];
      var rest := s[1..];
      assert s == [x] + rest;
      ChainedAt(step, size, next, n + size(x), next(x), rest, k - 1);
      UsedConsPrefix(size, x, rest, k);
      if k > 1 {
        assert s[k - 1] == rest[k - 2];
      }
      assert s[k] == rest[k - 1];
    }
  }
}
