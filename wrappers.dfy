/** The optional-value datatype shared by every module of the model. */
module Wrappers {

  /** `None` stands for JavaScript's `undefined` result of a failed lookup or parse. */
  datatype Option<+T> = None | Some(value: T) {

    /** The wrapped value, or `default` when there is none. */
    function GetOr(default: T): (r: T) {
      match this
      case Some(v) => v
      case None => default
    }
  }

  /** The values of the `Some` entries of `os`, in order. */
  function Somes<T>(os: seq<Option<T>>): (r: seq<T>)
    ensures |r| <= |os|
  {
    if os == [] then []
    else Somes(os[..|os| - 1]) + (match os[|os| - 1] case Some(v) => [v] case None => [])
  }

  /** A value is collected exactly when some entry holds it. */
  lemma {:induction false} SomesMembers<T>(os: seq<Option<T>>, x: T)
    ensures x in Somes(os) <==> exists i :: 0 <= i < |os| && os[i] == Some(x)
  {
    if os != [] {
      var init := os[..|os| - 1];
      SomesMembers(init, x);
      assert forall i :: 0 <= i < |init| ==> init[i] == os[i];
    }
  }

  /** The position of the first element that fails `p`, if there is one. */
  function FirstFailing<T>(p: T -> bool, xs: seq<T>): (r: Option<nat>)
    ensures r.None? <==> forall i :: 0 <= i < |xs| ==> p(xs[i])
    ensures r.Some? ==> r.value < |xs| && !p(xs[r.value]) && forall i :: 0 <= i < r.value ==> p(xs[i])
  {
    if xs == [] then None
    else if !p(xs[0]) then Some(0)
    else
      match FirstFailing(p, xs[1..])
      case None =>
        assert forall i :: 1 <= i < |xs| ==> xs[i] == xs[1..][i - 1];
        None
      case Some(j) =>
        assert forall i :: 1 <= i <= j ==> xs[i] == xs[1..][i - 1];
        Some(j + 1)
  }

  /** An element that fails `p` after elements that all pass it is the first failing one. */
  lemma FirstFailingAt<T>(p: T -> bool, xs: seq<T>, i: nat)
    requires i < |xs| && !p(xs[i]) && forall k :: 0 <= k < i ==> p(xs[k])
    ensures FirstFailing(p, xs) == Some(i)
  {
  }

  /** Every element of a prefix passes `p` exactly when every element before its end does. */
  lemma AllOfPrefix<T>(p: T -> bool, xs: seq<T>, i: nat)
    requires i <= |xs|
    ensures (forall k :: 0 <= k < |xs[..i]| ==> p(xs[..i][k])) <==> (forall k :: 0 <= k < i ==> p(xs[k]))
  {
    assert forall k :: 0 <= k < i ==> xs[..i][k] == xs[k];
  }

  /** A prefix whose elements pass `p` grows by one element that passes it. */
  lemma AllOfPrefixStep<T>(p: T -> bool, xs: seq<T>, i: nat, longer: seq<T>)
    requires i < |xs| && longer == xs[..i + 1]
    requires p(xs[i]) && forall k :: 0 <= k < |xs[..i]| ==> p(xs[..i][k])
    ensures forall k :: 0 <= k < |longer| ==> p(longer[k])
  {
    AllOfPrefix(p, xs, i);
    AllOfPrefix(p, xs, i + 1);
  }
}
