/** Small facts about sequences used throughout the model. */
module Seqs {
  import opened Wrappers

  /** Concatenation is associative; stated once so proofs can name the regrouping they need. */
  lemma ConcatAssoc<T>(x: seq<T>, y: seq<T>, z: seq<T>)
    ensures (x + y) + z == x + (y + z)
  {
  }

  /** `[f(x) for x in s]`. */
  function Map<A, B>(s: seq<A>, f: A -> B): (r: seq<B>)
    ensures |r| == |s| && forall k :: 0 <= k < |s| ==> r[k] == f(s[k])
  {
    seq(|s|, k requires 0 <= k < |s| => f(s[k]))
  }

  /** Mapping one more element appends its image. */
  lemma MapSnoc<A, B>(s: seq<A>, f: A -> B, i: nat)
    requires i < |s|
    ensures Map(s[..i + 1], f) == Map(s[..i], f) + [f(s[i])]
  {
    var before, after := Map(s[..i], f), Map(s[..i + 1], f);
    forall k | 0 <= k < i + 1
      ensures after[k] == (before + [f(s[i])])[k]
    {
      assert s[..i + 1][k] == s[k];
      if k < i {
        assert s[..i][k] == s[k];
      }
    }
  }

  /** Mapping a sequence with one more element at the end appends its image. */
  lemma MapAppend<A, B>(s: seq<A>, x: A, f: A -> B)
    ensures Map(s + [x], f) == Map(s, f) + [f(x)]
  {
    var whole := s + [x];
    assert whole[..|s|] == s && whole[..|s| + 1] == whole;
    MapSnoc(whole, f, |s|);
  }

  /** `[g(x) for x in s if p(x)]` with `f` giving `Some(g(x))` exactly when `p(x)`: kept in order. */
  function FilterMap<A, B>(s: seq<A>, f: A -> Option<B>): (r: seq<B>)
    ensures |r| <= |s|
    decreases |s|
  {
    if s == [] then []
    else
      var init := FilterMap(s[..|s| - 1], f);
      match f(s[|s| - 1])
      case Some(y) => init + [y]
      case None => init
  }

  /** The results are exactly the values `f` gives some element. */
  lemma {:induction false} FilterMapMembers<A, B>(s: seq<A>, f: A -> Option<B>)
    ensures forall y :: y in FilterMap(s, f) <==> exists i :: 0 <= i < |s| && f(s[i]) == Some(y)
    decreases |s|
  {
    if s != [] {
      var n := |s| - 1;
      FilterMapMembers(s[..n], f);
      assert forall i :: 0 <= i < n ==> s[..n][i] == s[i];
    }
  }
}
