/**
 * The names `_makeUniqueStateName` tries when a state name is taken, and
 * what it means for a name to be the first free one.
 */
module StateNames {
  import Decimal

  /** The names `_makeUniqueStateName` tries in turn: the name itself, then
      the name followed by 1, 2, 3, ... */
  function Candidate(origin: string, index: nat): (r: string)
    ensures index == 0 <==> r == origin
  {
    if index == 0 then origin else origin + Decimal.NatToString(index)
  }

  /** Different attempts give different names. */
  lemma CandidateInjective(origin: string, i: nat, j: nat)
    requires Candidate(origin, i) == Candidate(origin, j)
    ensures i == j
  {
    if i != 0 {
      var c := Candidate(origin, i);
      assert Decimal.NatToString(i) == c[|origin|..] == Decimal.NatToString(j);
      Decimal.NatToStringInjective(i, j);
    }
  }

  /** `r` is the first candidate for `origin` that is not in `names`. */
  ghost predicate IsFirstFree(names: set<string>, origin: string, r: string) {
    exists n: nat :: r == Candidate(origin, n) && r !in names && forall j: nat | j < n :: Candidate(origin, j) in names
  }

  /** There is only one first free candidate. */
  lemma FirstFreeUnique(names: set<string>, origin: string, r1: string, r2: string)
    requires IsFirstFree(names, origin, r1) && IsFirstFree(names, origin, r2)
    ensures r1 == r2
  {
    var n1: nat :| r1 == Candidate(origin, n1) && r1 !in names && forall j: nat | j < n1 :: Candidate(origin, j) in names;
    var n2: nat :| r2 == Candidate(origin, n2) && r2 !in names && forall j: nat | j < n2 :: Candidate(origin, j) in names;
    assert n1 >= n2;
    assert n2 >= n1;
  }
}
