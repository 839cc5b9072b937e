/** The order-preserving, duplicate-free subsequence relation on sequences. */
module Subsequence {

  /** `f` lists, in strictly increasing order, the positions of `b` that make up `a`. */
  ghost predicate Embeds<T>(f: seq<nat>, a: seq<T>, b: seq<T>) {
    && |f| == |a|
    && (forall i :: 0 <= i < |f| ==> f[i] < |b| && a[i] == b[f[i]])
    && (forall i, j :: 0 <= i < j < |f| ==> f[i] < f[j])
  }

  ghost predicate IsSubsequence<T>(a: seq<T>, b: seq<T>) {
    exists f: seq<nat> :: Embeds(f, a, b)
  }

  lemma Reflexive<T>(a: seq<T>)
    ensures IsSubsequence(a, a)
  {
    var f: seq<nat> := seq(|a|, i => i);
    assert Embeds(f, a, a);
  }

  /** Accepting one more element on both sides. */
  lemma Append<T>(a: seq<T>, b: seq<T>, x: T)
    requires IsSubsequence(a, b)
    ensures IsSubsequence(a + [x], b + [x])
  {
    var f: seq<nat> :| Embeds(f, a, b);
    var g: seq<nat> := f + [|b|];
    assert Embeds(g, a + [x], b + [x]);
  }

  /** Losing any contiguous part of the left-hand side. */
  lemma DropMiddle<T>(a: seq<T>, lost: seq<T>, c: seq<T>, b: seq<T>)
    requires IsSubsequence(a + lost + c, b)
    ensures IsSubsequence(a + c, b)
  {
    var f: seq<nat> :| Embeds(f, a + lost + c, b);
    var g: seq<nat> := f[..|a|] + f[|a| + |lost|..];
    forall i | 0 <= i < |g|
      ensures g[i] < |b| && (a + c)[i] == b[g[i]]
    {
      var j := if i < |a| then i else i + |lost|;
      assert g[i] == f[j] && (a + c)[i] == (a + lost + c)[j];
    }
    assert Embeds(g, a + c, b);
  }
}
