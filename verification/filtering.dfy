/** Keeping what a per-element step produces: the shape shared by the name
    loop of the outage widget and the item list of the listing grid, which
    both map each element to an optional output and drop the empty ones. */
module Filtering {
  import opened Wrappers

  /** The outputs of `f` over `s`, in order, `None`s dropped. */
  function FilterMap<A, B>(s: seq<A>, f: A -> Option<B>): (r: seq<B>)
    ensures |r| <= |s|
    decreases |s|
  {
    if s == [] then []
    else
      var x := s[|s| - 1];
      FilterMap(s[..|s| - 1], f) + (if f(x).Some? then [f(x).value] else [])
  }

  /** One more element adds its output, if any, at the end. */
  lemma FilterMapStep<A, B>(s: seq<A>, x: A, f: A -> Option<B>)
    ensures f(x).None? ==> FilterMap(s + [x], f) == FilterMap(s, f)
    ensures f(x).Some? ==> FilterMap(s + [x], f) == FilterMap(s, f) + [f(x).value]
  {
    assert (s + [x])[..|s|] == s;
  }

  /** A prefix grows by the next element: the step of a loop over `s`. */
  lemma FilterMapPrefixStep<A, B>(s: seq<A>, i: nat, f: A -> Option<B>)
    requires i < |s|
    ensures f(s[i]).None? ==> FilterMap(s[..i + 1], f) == FilterMap(s[..i], f)
    ensures f(s[i]).Some? ==> FilterMap(s[..i + 1], f) == FilterMap(s[..i], f) + [f(s[i]).value]
  {
    assert s[..i + 1] == s[..i] + [s[i]];
    FilterMapStep(s[..i], s[i], f);
  }

  /** Consecutive runs give consecutive outputs. */
  lemma {:induction false} FilterMapAppend<A, B>(a: seq<A>, b: seq<A>, f: A -> Option<B>)
    ensures FilterMap(a + b, f) == FilterMap(a, f) + FilterMap(b, f)
    decreases |b|
  {
    if b == [] {
      assert a + b == a;
    } else {
      var init := b[..|b| - 1];
      assert (a + b)[..|a + b| - 1] == a + init;
      assert (a + b)[|a + b| - 1] == b[|b| - 1];
      FilterMapAppend(a, init, f);
    }
  }

  /** Every output is the output of some element, and every element's
      output is among the outputs. */
  lemma {:induction false} FilterMapMembers<A, B>(s: seq<A>, f: A -> Option<B>)
    ensures forall y :: y in FilterMap(s, f) <==> exists i :: 0 <= i < |s| && f(s[i]) == Some(y)
    decreases |s|
  {
    if s != [] {
      var init := s[..|s| - 1];
      FilterMapMembers(init, f);
      forall y
        ensures y in FilterMap(s, f) <==> exists i :: 0 <= i < |s| && f(s[i]) == Some(y)
      {
        if y in FilterMap(s, f) {
          if y in FilterMap(init, f) {
            var i :| 0 <= i < |init| && f(init[i]) == Some(y);
            assert s[i] == init[i];
          } else {
            assert f(s[|s| - 1]) == Some(y);
          }
        }
        if exists i :: 0 <= i < |s| && f(s[i]) == Some(y) {
          var i :| 0 <= i < |s| && f(s[i]) == Some(y);
          if i < |s| - 1 {
            assert init[i] == s[i];
          }
        }
      }
    }
  }

  /** When no element is dropped, output `i` is element `i`'s. */
  lemma {:induction false} FilterMapKeepsAll<A, B>(s: seq<A>, f: A -> Option<B>)
    requires forall i :: 0 <= i < |s| ==> f(s[i]).Some?
    ensures |FilterMap(s, f)| == |s|
    ensures forall i :: 0 <= i < |s| ==> FilterMap(s, f)[i] == f(s[i]).value
    decreases |s|
  {
    if s != [] {
      var init := s[..|s| - 1];
      assert forall i :: 0 <= i < |init| ==> init[i] == s[i];
      FilterMapKeepsAll(init, f);
      assert f(s[|s| - 1]).Some?;
    }
  }

  /** When every element is dropped, there is no output. */
  lemma {:induction false} FilterMapDropsAll<A, B>(s: seq<A>, f: A -> Option<B>)
    requires forall i :: 0 <= i < |s| ==> f(s[i]).None?
    ensures FilterMap(s, f) == []
    decreases |s|
  {
    if s != [] {
      var init := s[..|s| - 1];
      assert forall i :: 0 <= i < |init| ==> init[i] == s[i];
      FilterMapDropsAll(init, f);
      assert f(s[|s| - 1]).None?;
    }
  }
}
