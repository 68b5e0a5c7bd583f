/** Positions of the first and of the last element of a sequence that a test
    accepts: the reference definitions of "first match wins" and "last match
    wins" against which the product scans are proved. */
module Search {
  import opened Wrappers

  /** The position of the last element `f` accepts, searching from the end. */
  function LastWhere<T>(xs: seq<T>, f: T -> bool): Option<nat>
  {
    if xs == [] then None
    else if f(xs[|xs| - 1]) then Some(|xs| - 1)
    else LastWhere(xs[..|xs| - 1], f)
  }

  /** The position of the first element `f` accepts, searching from the front. */
  function FirstWhere<T>(xs: seq<T>, f: T -> bool): Option<nat>
  {
    if xs == [] then None
    else if f(xs[0]) then Some(0)
    else
      match FirstWhere(xs[1..], f)
      case None => None
      case Some(k) => Some(k + 1)
  }

  /** LastWhere finds nothing exactly when no element is accepted; otherwise
      it finds an accepted element after which none is accepted. */
  lemma {:induction false} LastWhereSpec<T>(xs: seq<T>, f: T -> bool)
    ensures LastWhere(xs, f).None? <==> forall i :: 0 <= i < |xs| ==> !f(xs[i])
    ensures LastWhere(xs, f).Some? ==>
      var k := LastWhere(xs, f).value;
      k < |xs| && f(xs[k]) && forall j :: k < j < |xs| ==> !f(xs[j])
  {
    if xs != [] && !f(xs[|xs| - 1]) {
      var front := xs[..|xs| - 1];
      LastWhereSpec(front, f);
      assert forall j :: 0 <= j < |front| ==> front[j] == xs[j];
    }
  }

  /** FirstWhere finds nothing exactly when no element is accepted; otherwise
      it finds an accepted element before which none is accepted. */
  lemma {:induction false} FirstWhereSpec<T>(xs: seq<T>, f: T -> bool)
    ensures FirstWhere(xs, f).None? <==> forall i :: 0 <= i < |xs| ==> !f(xs[i])
    ensures FirstWhere(xs, f).Some? ==>
      var k := FirstWhere(xs, f).value;
      k < |xs| && f(xs[k]) && forall j :: 0 <= j < k ==> !f(xs[j])
  {
    if xs != [] && !f(xs[0]) {
      var tail := xs[1..];
      FirstWhereSpec(tail, f);
      assert forall j :: 1 <= j < |xs| ==> xs[j] == tail[j - 1];
    }
  }

  /** The last match seen from the front: the last match of the tail if there
      is one, else the head if it matches. This is what lets a left-to-right
      loop that overwrites on every match compute the last match. */
  lemma LastWhereCons<T>(xs: seq<T>, f: T -> bool)
    requires xs != []
    ensures LastWhere(xs, f)
         == match LastWhere(xs[1..], f)
            case Some(k) => Some(k + 1)
            case None => if f(xs[0]) then Some(0) else None
  {
    var tail := xs[1..];
    LastWhereSpec(xs, f);
    LastWhereSpec(tail, f);
    assert forall j :: 1 <= j < |xs| ==> xs[j] == tail[j - 1];
    match LastWhere(tail, f)
    case Some(k) =>
      assert f(xs[k + 1]);
    case None =>
  }

  /** `g` has a value at every element `f` accepts. */
  predicate DefinedWhere<T, U>(xs: seq<T>, f: T -> bool, g: T -> Option<U>)
  {
    forall i :: 0 <= i < |xs| && f(xs[i]) ==> g(xs[i]).Some?
  }

  /** The value `g` gives the last element `f` accepts, or `default` when
      `f` accepts none. */
  function LastValue<T, U>(xs: seq<T>, f: T -> bool, g: T -> Option<U>, default: U): U
    requires DefinedWhere(xs, f, g)
  {
    LastWhereSpec(xs, f);
    match LastWhere(xs, f)
    case None => default
    case Some(k) => g(xs[k]).value
  }

  /** A left-to-right pass that replaces `default` by the value of every
      accepted element ends with the value of the last one. */
  lemma LastValueCons<T, U>(xs: seq<T>, f: T -> bool, g: T -> Option<U>, default: U)
    requires xs != [] && DefinedWhere(xs, f, g)
    ensures DefinedWhere(xs[1..], f, g)
    ensures LastValue(xs, f, g, default)
         == LastValue(xs[1..], f, g, if f(xs[0]) then g(xs[0]).value else default)
  {
    var tail := xs[1..];
    assert forall i :: 0 <= i < |tail| ==> tail[i] == xs[i + 1];
    LastWhereCons(xs, f);
    match LastWhere(tail, f)
    case Some(k) =>
      LastWhereSpec(tail, f);
      assert tail[k] == xs[k + 1];
    case None =>
  }
}
