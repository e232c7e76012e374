/** The policy-similarity measure used to compare the algorithms: the
    share, in percent, of the counted states of the first policy (those
    that are neither goal nor trap) on which the two policies' most
    probable actions agree. */
module Comparison {
  import opened Lake
  import opened Rows

  /** Every counted state of P1 has a row in P2 (the lookup that the count
      makes in P2 would fail otherwise). */
  predicate Comparable(P1: map<Pos, Row>, P2: map<Pos, Row>) {
    forall s :: s in P1 && !IsTerminal(s) ==> s in P2
  }

  /** The states of X that are neither goal nor trap. */
  function CountedIn(X: set<Pos>): (r: set<Pos>)
    ensures r <= X
  {
    set s | s in X && !IsTerminal(s)
  }

  /** The counted states of X on which the two policies pick the same first
      most probable action. */
  function AgreeingIn(P1: map<Pos, Row>, P2: map<Pos, Row>, X: set<Pos>): (r: set<Pos>)
    requires Comparable(P1, P2) && X <= P1.Keys
    ensures r <= CountedIn(X)
  {
    set s | s in X && !IsTerminal(s) && FirstArgMax(P1[s]) == FirstArgMax(P2[s])
  }

  /** count_same / count_total * 100, or 0 when nothing is counted. */
  function Percent(same: nat, total: nat): real {
    if total > 0 then (same as real / total as real) * 100.0 else 0.0
  }

  /** The similarity of P2 to P1. */
  function Similarity(P1: map<Pos, Row>, P2: map<Pos, Row>): real
    requires Comparable(P1, P2)
  {
    Percent(|AgreeingIn(P1, P2, P1.Keys)|, |CountedIn(P1.Keys)|)
  }

  lemma {:induction false} SubsetCard(a: set<Pos>, b: set<Pos>)
    requires a <= b
    ensures |a| <= |b|
    decreases b
  {
    if a != {} {
      var x :| x in a;
      SubsetCard(a - {x}, b - {x});
    }
  }

  /** A share of at most all counted states is a percentage in [0, 100];
      all of them give 100 and none of them give 0. */
  lemma PercentBounds(same: nat, total: nat)
    requires same <= total
    ensures 0.0 <= Percent(same, total) <= 100.0
    ensures total > 0 && same == total ==> Percent(same, total) == 100.0
    ensures same == 0 ==> Percent(same, total) == 0.0
  {
    if total > 0 {
      var q := same as real / total as real;
      assert q * (total as real) == same as real;
      assert q <= 1.0;
    }
  }

  /** The similarity is a percentage, and it is 0 when no state is counted. */
  lemma SimilarityBounds(P1: map<Pos, Row>, P2: map<Pos, Row>)
    requires Comparable(P1, P2)
    ensures 0.0 <= Similarity(P1, P2) <= 100.0
    ensures CountedIn(P1.Keys) == {} ==> Similarity(P1, P2) == 0.0
  {
    SubsetCard(AgreeingIn(P1, P2, P1.Keys), CountedIn(P1.Keys));
    PercentBounds(|AgreeingIn(P1, P2, P1.Keys)|, |CountedIn(P1.Keys)|);
  }

  /** A policy agrees with itself on every counted state. */
  lemma SimilarityToSelf(P: map<Pos, Row>)
    requires Comparable(P, P)
    ensures CountedIn(P.Keys) != {} ==> Similarity(P, P) == 100.0
  {
    assert AgreeingIn(P, P, P.Keys) == CountedIn(P.Keys);
    PercentBounds(|CountedIn(P.Keys)|, |CountedIn(P.Keys)|);
  }

  /** Over the same states, the similarity does not depend on the order of
      the two policies. */
  lemma SimilaritySymmetric(P1: map<Pos, Row>, P2: map<Pos, Row>)
    requires P1.Keys == P2.Keys
    ensures Comparable(P1, P2) && Comparable(P2, P1)
    ensures Similarity(P1, P2) == Similarity(P2, P1)
  {
    assert AgreeingIn(P1, P2, P1.Keys) == AgreeingIn(P2, P1, P2.Keys);
  }

  /** Counting one more state of P1. */
  lemma CountOneMore(P1: map<Pos, Row>, P2: map<Pos, Row>, X: set<Pos>, s: Pos)
    requires Comparable(P1, P2) && X <= P1.Keys && s in P1 && s !in X
    ensures CountedIn(X + {s}) == if IsTerminal(s) then CountedIn(X) else CountedIn(X) + {s}
    ensures AgreeingIn(P1, P2, X + {s}) ==
      if !IsTerminal(s) && FirstArgMax(P1[s]) == FirstArgMax(P2[s]) then AgreeingIn(P1, P2, X) + {s}
      else AgreeingIn(P1, P2, X)
  {
  }

  /** The counts hold what the loop has found over the visited states. */
  ghost predicate CountedSoFar(P1: map<Pos, Row>, P2: map<Pos, Row>, visited: set<Pos>, same: nat, total: nat) {
    Comparable(P1, P2) && visited <= P1.Keys &&
    total == |CountedIn(visited)| && same == |AgreeingIn(P1, P2, visited)| && same <= total
  }

  /** The body of the counting loop for one state of policy1: a goal or
      trap state is skipped; any other is counted, and counted as agreeing
      when both policies pick the same action. */
  method CountState(env: FrozenLake, policy1: map<Pos, Row>, policy2: map<Pos, Row>, state: Pos,
                    ghost visited: set<Pos>, countSame: nat, countTotal: nat) returns (newSame: nat, newTotal: nat)
    requires env.Valid() && CountedSoFar(policy1, policy2, visited, countSame, countTotal)
    requires state in policy1 && state !in visited
    ensures CountedSoFar(policy1, policy2, visited + {state}, newSame, newTotal)
  {
    CountOneMore(policy1, policy2, visited, state);
    IsTrapIsMembership(state);
    newSame, newTotal := countSame, countTotal;
    if !(state == env.goal || state in env.traps) {
      var bestAction1 := FirstArgMax(policy1[state]);
      var bestAction2 := FirstArgMax(policy2[state]);
      if bestAction1 == bestAction2 {
        newSame := newSame + 1;
      }
      newTotal := newTotal + 1;
    }
  }

  /** Visits the states of policy1, skips goal and trap states, counts the
      others and those on which both policies pick the same action, and
      returns the percentage. */
  method CalculatePolicySimilarity(env: FrozenLake, policy1: map<Pos, Row>, policy2: map<Pos, Row>) returns (similarity: real)
    requires env.Valid() && Comparable(policy1, policy2)
    ensures similarity == Similarity(policy1, policy2)
  {
    var countSame: nat := 0;
    var countTotal: nat := 0;
    var remaining := policy1.Keys;
    ghost var visited: set<Pos> := {};
    while remaining != {}
      invariant CountedSoFar(policy1, policy2, visited, countSame, countTotal)
      invariant remaining == policy1.Keys - visited
      decreases |remaining|
    {
      var state :| state in remaining;
      countSame, countTotal := CountState(env, policy1, policy2, state, visited, countSame, countTotal);
      remaining := remaining - {state};
      visited := visited + {state};
    }
    assert visited == policy1.Keys;
    similarity := if countTotal > 0 then (countSame as real / countTotal as real) * 100.0 else 0.0;
  }
}
