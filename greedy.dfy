/** Reading a deterministic policy off a Q table: each swept cell gets the
    one-hot row of the first action of largest Q value, and the extraction
    loop that builds it cell by cell. */
module Greedy {
  import opened Lake
  import opened Rows
  import opened Bellman

  /** The greedy policy of Q over P: each swept cell gets the one-hot row of
      its first best action; goal and trap cells keep their row of P. */
  function GreedyPolicy(n: nat, Q: map<Pos, Row>, P: map<Pos, Row>): (r: map<Pos, Row>)
    requires CoversRows(n, Q) && CoversRows(n, P)
    ensures r.Keys == P.Keys && CoversRows(n, r)
  {
    map s | s in P :: if Swept(n, s) then OneHot(FirstArgMax(Q[s])) else P[s]
  }

  /** The greedy policy puts all its mass on the first action of largest
      Q value, and leaves goal and trap rows as they were. */
  lemma GreedyPolicyIsGreedy(n: nat, Q: map<Pos, Row>, P: map<Pos, Row>, s: Pos)
    requires CoversRows(n, Q) && CoversRows(n, P) && InGrid(n, s)
    ensures var r := GreedyPolicy(n, Q, P);
      if Swept(n, s) then
        exists a: ActionIndex :: r[s] == OneHot(a) && IsFirstMax(Q[s], a) && Q[s].Get(a) == RowMax(Q[s])
      else r[s] == P[s]
  {
    if Swept(n, s) {
      var a := FirstArgMax(Q[s]);
      FirstArgMaxIsFirstMax(Q[s]);
      FirstArgMaxAttainsMax(Q[s]);
      assert GreedyPolicy(n, Q, P)[s] == OneHot(a);
    }
  }

  /** The policy once the extraction loop has reached lim. */
  function GreedyUpTo(n: nat, Q: map<Pos, Row>, P: map<Pos, Row>, lim: Pos): (r: map<Pos, Row>)
    requires CoversRows(n, Q) && CoversRows(n, P)
    ensures r.Keys == P.Keys && CoversRows(n, r)
  {
    map s | s in P :: if Swept(n, s) && Before(s, lim) then OneHot(FirstArgMax(Q[s])) else P[s]
  }

  lemma GreedyUpToStep(n: nat, Q: map<Pos, Row>, P: map<Pos, Row>, i: nat, j: nat)
    requires CoversRows(n, Q) && CoversRows(n, P) && i < n && j < n
    ensures var c := Pos(i, j);
      var g := GreedyUpTo(n, Q, P, c);
      GreedyUpTo(n, Q, P, Pos(i, j + 1)) == if Swept(n, c) then g[c := OneHot(FirstArgMax(Q[c]))] else g
  {
    var c := Pos(i, j);
    var g := GreedyUpTo(n, Q, P, c);
    var g1 := GreedyUpTo(n, Q, P, Pos(i, j + 1));
    var h := if Swept(n, c) then g[c := OneHot(FirstArgMax(Q[c]))] else g;
    assert g1.Keys == h.Keys;
    forall s | s in g1 ensures g1[s] == h[s] {
      if s != c {
        assert Before(s, Pos(i, j + 1)) <==> Before(s, c);
      }
    }
  }

  lemma GreedyUpToNextRow(n: nat, Q: map<Pos, Row>, P: map<Pos, Row>, i: nat)
    requires CoversRows(n, Q) && CoversRows(n, P) && i < n
    ensures GreedyUpTo(n, Q, P, Pos(i, n)) == GreedyUpTo(n, Q, P, Pos(i + 1, 0))
  {
  }

  lemma GreedyUpToAll(n: nat, Q: map<Pos, Row>, P: map<Pos, Row>)
    requires CoversRows(n, Q) && CoversRows(n, P)
    ensures GreedyUpTo(n, Q, P, Pos(n, 0)) == GreedyPolicy(n, Q, P)
  {
  }


  /** Every swept cell's first best action under Q is the first most
      probable action of its row in P: no choice changes. */
  predicate SameChoices(n: nat, Q: map<Pos, Row>, P: map<Pos, Row>)
    requires CoversRows(n, Q) && CoversRows(n, P)
  {
    forall s :: s in P && Swept(n, s) ==> FirstArgMax(P[s]) == FirstArgMax(Q[s])
  }

  /** The same test over the swept cells before lim. */
  predicate SameChoicesUpTo(n: nat, Q: map<Pos, Row>, P: map<Pos, Row>, lim: Pos)
    requires CoversRows(n, Q) && CoversRows(n, P)
  {
    forall s :: s in P && Swept(n, s) && Before(s, lim) ==> FirstArgMax(P[s]) == FirstArgMax(Q[s])
  }

  lemma SameChoicesUpToStep(n: nat, Q: map<Pos, Row>, P: map<Pos, Row>, i: nat, j: nat)
    requires CoversRows(n, Q) && CoversRows(n, P) && i < n && j < n
    ensures var c := Pos(i, j);
      SameChoicesUpTo(n, Q, P, Pos(i, j + 1)) <==>
      SameChoicesUpTo(n, Q, P, c) && (Swept(n, c) ==> FirstArgMax(P[c]) == FirstArgMax(Q[c]))
  {
    var c := Pos(i, j);
    if SameChoicesUpTo(n, Q, P, c) && (Swept(n, c) ==> FirstArgMax(P[c]) == FirstArgMax(Q[c])) {
      forall s | s in P && Swept(n, s) && Before(s, Pos(i, j + 1)) ensures FirstArgMax(P[s]) == FirstArgMax(Q[s]) {
        if s != c {
          assert Before(s, c);
        }
      }
    }
    if SameChoicesUpTo(n, Q, P, Pos(i, j + 1)) {
      assert InGrid(n, c);
      forall s | s in P && Swept(n, s) && Before(s, c) ensures FirstArgMax(P[s]) == FirstArgMax(Q[s]) {
        assert Before(s, Pos(i, j + 1));
      }
    }
  }

  lemma SameChoicesUpToNextRow(n: nat, Q: map<Pos, Row>, P: map<Pos, Row>, i: nat)
    requires CoversRows(n, Q) && CoversRows(n, P) && i < n
    ensures SameChoicesUpTo(n, Q, P, Pos(i, n)) <==> SameChoicesUpTo(n, Q, P, Pos(i + 1, 0))
  {
  }

  lemma SameChoicesUpToAll(n: nat, Q: map<Pos, Row>, P: map<Pos, Row>)
    requires CoversRows(n, Q) && CoversRows(n, P)
    ensures SameChoicesUpTo(n, Q, P, Pos(n, 0)) <==> SameChoices(n, Q, P)
  {
  }

  /** Every swept row of P is one-hot. */
  ghost predicate Deterministic(n: nat, P: map<Pos, Row>)
    requires CoversRows(n, P)
  {
    forall s :: Swept(n, s) ==> P[s] == OneHot(FirstArgMax(P[s]))
  }

  /** The greedy policy is deterministic. */
  lemma GreedyIsDeterministic(n: nat, Q: map<Pos, Row>, P: map<Pos, Row>)
    requires CoversRows(n, Q) && CoversRows(n, P)
    ensures Deterministic(n, GreedyPolicy(n, Q, P))
  {
    forall s | Swept(n, s)
      ensures GreedyPolicy(n, Q, P)[s] == OneHot(FirstArgMax(GreedyPolicy(n, Q, P)[s]))
    {
      FirstArgMaxOfOneHot(FirstArgMax(Q[s]));
    }
  }

  /** For a deterministic policy, no choice changes exactly when the
      greedy policy is the policy itself. */
  lemma SameChoicesIffUnchanged(n: nat, Q: map<Pos, Row>, P: map<Pos, Row>)
    requires CoversRows(n, Q) && CoversRows(n, P) && Deterministic(n, P)
    ensures SameChoices(n, Q, P) <==> GreedyPolicy(n, Q, P) == P
  {
    var G := GreedyPolicy(n, Q, P);
    if SameChoices(n, Q, P) {
      forall s | s in P ensures G[s] == P[s] {
        if Swept(n, s) {
          assert P[s] == OneHot(FirstArgMax(P[s]));
        }
      }
      assert G == P;
    }
    if G == P {
      forall s | s in P && Swept(n, s) ensures FirstArgMax(P[s]) == FirstArgMax(Q[s]) {
        assert P[s] == OneHot(FirstArgMax(Q[s]));
        FirstArgMaxOfOneHot(FirstArgMax(Q[s]));
      }
    }
  }

  /** Making a policy greedy over the same Q a second time changes no
      choice and leaves it as it is. */
  lemma GreedyPolicyIdempotent(n: nat, Q: map<Pos, Row>, P: map<Pos, Row>)
    requires CoversRows(n, Q) && CoversRows(n, P)
    ensures SameChoices(n, Q, GreedyPolicy(n, Q, P))
    ensures GreedyPolicy(n, Q, GreedyPolicy(n, Q, P)) == GreedyPolicy(n, Q, P)
  {
    var G := GreedyPolicy(n, Q, P);
    forall s | s in G && Swept(n, s) ensures FirstArgMax(G[s]) == FirstArgMax(Q[s]) {
      FirstArgMaxOfOneHot(FirstArgMax(Q[s]));
    }
  }
}
