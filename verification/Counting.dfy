/** Counting the positions of a sequence that satisfy a test. */
module Counting {

  /** One more position is counted or not. */
  lemma CountOneMore(before: set<int>, all: set<int>, n: int, counts: bool)
    requires n !in before
    requires forall i :: i in all <==> i in before || (counts && i == n)
    ensures |all| == |before| + if counts then 1 else 0
  {
    var last: set<int> := if counts then {n} else {};
    forall i ensures i in all <==> i in before + last {
      if i in before { assert i in all; }
    }
    assert all == before + last;
  }
}
