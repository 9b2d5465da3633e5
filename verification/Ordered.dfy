/** Visiting a finite set of numbers in ascending order. */
module Ordered {
  lemma {:induction false} Least(s: set<nat>) returns (least: nat)
    requires s != {}
    ensures least in s && forall e | e in s :: least <= e
    decreases |s|
  {
    least :| least in s;
    var rest := s - {least};
    assert forall e | e in s :: e == least || e in rest;
    if rest != {} {
      var r := Least(rest);
      if r < least {
        least := r;
      }
    }
  }

  predicate Ascends(s: seq<nat>)
  {
    forall i, j | 0 <= i < j < |s| :: s[i] < s[j]
  }

  method Ascending(keys: set<nat>) returns (s: seq<nat>)
    ensures Ascends(s) && forall k :: k in s <==> k in keys
  {
    s := [];
    var left := keys;
    while left != {}
      invariant left <= keys && Ascends(s)
      invariant forall k :: k in keys <==> k in s || k in left
      invariant forall i, e | 0 <= i < |s| && e in left :: s[i] < e
      decreases left
    {
      ghost var least := Least(left);
      var e :| e in left && forall f | f in left :: e <= f;
      left := left - {e};
      s := s + [e];
    }
  }
}
