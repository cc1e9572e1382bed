/** Two facts about finite sets of numbers that have to be found out by hand. */
module Sets {
  /** A number that no member exceeds. */
  lemma {:induction false} UpperBound(s: set<nat>) returns (top: nat)
    ensures forall x :: x in s ==> x <= top
  {
    top := 0;
    if s != {} {
      var y :| y in s;
      var rest := UpperBound(s - {y});
      top := if rest < y then y else rest;
      forall x | x in s && x != y
        ensures x <= top
      {
        assert x in s - {y};
      }
    }
  }

  lemma EmptyOrNot(s: set<int>)
    ensures s == {} || exists x :: x in s
  {
    if !exists x :: x in s {
      assert s == {};
    }
  }
}
