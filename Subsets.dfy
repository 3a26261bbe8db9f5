/**
 * Counting subsets: a family of distinct subsets of a finite set U has at
 * most 2^|U| members. This bounds the number of composite states the subset
 * construction can discover.
 */
module Subsets {

  function Pow2(n: nat): (p: nat)
    ensures p >= 1
  {
    if n == 0 then 1 else 2 * Pow2(n - 1)
  }

  /** Every member of the family F is a subset of U. */
  ghost predicate FamilyOf(F: set<set<string>>, U: set<string>)
  {
    forall X | X in F :: X <= U
  }

  /** Removing u from sets that all contain it keeps them distinct. */
  lemma {:induction false} RemovePreservesCount(F: set<set<string>>, u: string)
    requires forall X | X in F :: u in X
    ensures |set X | X in F :: X - {u}| == |F|
    decreases |F|
  {
    if F != {} {
      var X :| X in F;
      var F' := F - {X};
      RemovePreservesCount(F', u);
      var G, G' := set Y | Y in F :: Y - {u}, set Y | Y in F' :: Y - {u};
      assert G == G' + {X - {u}};
      forall Y | Y in F' ensures Y - {u} != X - {u} {
        assert Y == (Y - {u}) + {u} && X == (X - {u}) + {u};
      }
    }
  }

  /** A family of distinct subsets of U has at most 2^|U| members. */
  lemma {:induction false} FamilyBound(F: set<set<string>>, U: set<string>)
    requires FamilyOf(F, U)
    ensures |F| <= Pow2(|U|)
    decreases |U|
  {
    if U == {} {
      var empty: set<string> := {};
      forall X | X in F ensures X == empty {
        assert X <= U;
      }
      SubsetCard(F, {empty});
    } else {
      var u :| u in U;
      var U' := U - {u};
      var without := set X | X in F && u !in X;
      var with := set X | X in F && u in X;
      var shrunk := set X | X in with :: X - {u};
      assert F == without + with && without * with == {};
      FamilyBound(without, U');
      FamilyBound(shrunk, U');
      RemovePreservesCount(with, u);
    }
  }

  lemma SubsetCard(A: set<set<string>>, B: set<set<string>>)
    requires A <= B
    ensures |A| <= |B|
  {
    assert B == A + (B - A);
  }
}
