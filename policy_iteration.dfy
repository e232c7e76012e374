/** Policy Iteration on the frozen lake: starting from the uniform policy,
    alternate an in-place evaluation of the current policy (expected
    backups until the largest change of a sweep is at most theta) with a
    greedy improvement, until an improvement changes no choice or a round
    budget is spent. */
module PolicyIter {
  import opened Lake
  import opened Rows
  import opened Bellman
  import opened Greedy
  import Iteration

  /** The default convergence threshold of policy evaluation. */
  const THETA: real := 0.001

  /** Policy evaluation sweeps while the delta of the last sweep is above
      theta; the sweep budget `fuel` bounds a loop the source leaves
      unbounded. */
  function EvaluationRule(theta: real, fuel: nat): StopRule {
    StopRule(theta, false, fuel)
  }

  /** The values a policy evaluation of P that starts from V ends with. */
  function Evaluated(n: nat, gamma: real, P: map<Pos, Row>, V: map<Pos, real>, theta: real, fuel: nat): (r: map<Pos, real>)
    requires CoversRows(n, P) && CoversValues(n, V)
    ensures CoversValues(n, r)
  {
    ValuesAfter(n, gamma, Expected(P), V, SweepCount(n, gamma, Expected(P), V, EvaluationRule(theta, fuel), 0))
  }

  /** Q after an improvement against V: every swept row is the look-ahead
      row of its cell, every other row is left as it was. */
  function ImprovedRows(n: nat, gamma: real, V: map<Pos, real>, Q: map<Pos, Row>): (r: map<Pos, Row>)
    requires CoversValues(n, V) && CoversRows(n, Q)
    ensures r.Keys == Q.Keys && CoversRows(n, r)
  {
    map s | s in Q :: if Swept(n, s) then LookaheadRow(n, gamma, V, s) else Q[s]
  }

  /** Q once the improvement loop has reached lim. */
  function ImprovedUpTo(n: nat, gamma: real, V: map<Pos, real>, Q: map<Pos, Row>, lim: Pos): (r: map<Pos, Row>)
    requires CoversValues(n, V) && CoversRows(n, Q)
    ensures r.Keys == Q.Keys && CoversRows(n, r)
  {
    map s | s in Q :: if Swept(n, s) && Before(s, lim) then LookaheadRow(n, gamma, V, s) else Q[s]
  }

  /** Improving cell (i, j) is one step of the loop. */
  lemma ImprovedUpToStep(n: nat, gamma: real, V: map<Pos, real>, Q: map<Pos, Row>, i: nat, j: nat)
    requires CoversValues(n, V) && CoversRows(n, Q) && i < n && j < n
    ensures ImprovedUpTo(n, gamma, V, Q, Pos(i, j + 1)) ==
            StepRows(n, gamma, V, ImprovedUpTo(n, gamma, V, Q, Pos(i, j)), Pos(i, j))
  {
    ImprovedUpToStepEntries(n, gamma, V, Q, i, j);
  }

  lemma ImprovedUpToStepEntries(n: nat, gamma: real, V: map<Pos, real>, Q: map<Pos, Row>, i: nat, j: nat)
    requires CoversValues(n, V) && CoversRows(n, Q) && i < n && j < n
    ensures InGrid(n, Pos(i, j))
    ensures var g1 := ImprovedUpTo(n, gamma, V, Q, Pos(i, j + 1));
      var h := StepRows(n, gamma, V, ImprovedUpTo(n, gamma, V, Q, Pos(i, j)), Pos(i, j));
      g1.Keys == h.Keys && forall s :: s in g1 ==> g1[s] == h[s]
  {
    var c := Pos(i, j);
    assert InGrid(n, c);
    forall s | s in Q
      ensures ImprovedUpTo(n, gamma, V, Q, Pos(i, j + 1))[s] ==
              StepRows(n, gamma, V, ImprovedUpTo(n, gamma, V, Q, c), c)[s]
    {
      ImprovedUpToStepAt(n, gamma, V, Q, i, j, s);
    }
  }

  lemma ImprovedUpToStepAt(n: nat, gamma: real, V: map<Pos, real>, Q: map<Pos, Row>, i: nat, j: nat, s: Pos)
    requires CoversValues(n, V) && CoversRows(n, Q) && i < n && j < n && s in Q
    ensures InGrid(n, Pos(i, j))
    ensures ImprovedUpTo(n, gamma, V, Q, Pos(i, j + 1))[s] ==
            StepRows(n, gamma, V, ImprovedUpTo(n, gamma, V, Q, Pos(i, j)), Pos(i, j))[s]
  {
    var c := Pos(i, j);
    assert InGrid(n, c);
    if s != c {
      assert Before(s, Pos(i, j + 1)) <==> Before(s, c);
    }
  }

  lemma ImprovedUpToNextRow(n: nat, gamma: real, V: map<Pos, real>, Q: map<Pos, Row>, i: nat)
    requires CoversValues(n, V) && CoversRows(n, Q) && i < n
    ensures ImprovedUpTo(n, gamma, V, Q, Pos(i, n)) == ImprovedUpTo(n, gamma, V, Q, Pos(i + 1, 0))
  {
  }

  lemma ImprovedUpToAll(n: nat, gamma: real, V: map<Pos, real>, Q: map<Pos, Row>)
    requires CoversValues(n, V) && CoversRows(n, Q)
    ensures ImprovedUpTo(n, gamma, V, Q, Pos(n, 0)) == ImprovedRows(n, gamma, V, Q)
  {
  }

  /** What the improvement loop carries: Q, the policy and the stable flag. */
  datatype Improvement = Improvement(Q: map<Pos, Row>, policy: map<Pos, Row>, stable: bool)

  ghost predicate CoversImprovement(n: nat, m: Improvement) {
    CoversRows(n, m.Q) && CoversRows(n, m.policy)
  }

  /** Improving cell c against V: a swept cell gets its look-ahead row in Q
      and the one-hot row of its first best action in the policy, and the
      flag is cleared when that action is not the cell's most probable one;
      goal and trap cells are skipped. */
  function ImproveCellState(n: nat, gamma: real, V: map<Pos, real>, m: Improvement, c: Pos): (r: Improvement)
    requires CoversValues(n, V) && CoversImprovement(n, m) && InGrid(n, c)
    ensures CoversImprovement(n, r)
  {
    if IsTerminal(c) then m
    else
      var row := LookaheadRow(n, gamma, V, c);
      Improvement(m.Q[c := row], m.policy[c := OneHot(FirstArgMax(row))],
                  m.stable && FirstArgMax(m.policy[c]) == FirstArgMax(row))
  }

  /** The improvement loop against V, started on Q0 and P0 with the flag
      set, once it has reached (i, j). */
  function ImproveSweep(n: nat, gamma: real, V: map<Pos, real>, Q0: map<Pos, Row>, P0: map<Pos, Row>, i: nat, j: nat): (r: Improvement)
    requires CoversValues(n, V) && CoversRows(n, Q0) && CoversRows(n, P0) && Stage(n, i, j)
    ensures CoversImprovement(n, r)
    decreases i, j
  {
    if j == 0 then
      if i == 0 then Improvement(Q0, P0, true) else ImproveSweep(n, gamma, V, Q0, P0, i - 1, n)
    else
      ImproveCellState(n, gamma, V, ImproveSweep(n, gamma, V, Q0, P0, i, j - 1), Pos(i, j - 1))
  }

  /** The closed form of the improvement loop at lim: the swept rows before
      lim are improved, their policy rows are greedy over the improved Q,
      and the flag is set exactly when none of their choices changed. */
  function ImprovedBefore(n: nat, gamma: real, V: map<Pos, real>, Q0: map<Pos, Row>, P0: map<Pos, Row>, lim: Pos): Improvement
    requires CoversValues(n, V) && CoversRows(n, Q0) && CoversRows(n, P0)
  {
    var Q1 := ImprovedRows(n, gamma, V, Q0);
    Improvement(ImprovedUpTo(n, gamma, V, Q0, lim), GreedyUpTo(n, Q1, P0, lim), SameChoicesUpTo(n, Q1, P0, lim))
  }

  /** Part way through, the loop holds the closed form. */
  lemma {:induction false} ImproveSweepUpTo(n: nat, gamma: real, V: map<Pos, real>, Q0: map<Pos, Row>, P0: map<Pos, Row>, i: nat, j: nat)
    requires CoversValues(n, V) && CoversRows(n, Q0) && CoversRows(n, P0) && Stage(n, i, j)
    ensures ImproveSweep(n, gamma, V, Q0, P0, i, j) == ImprovedBefore(n, gamma, V, Q0, P0, Pos(i, j))
    decreases i, j, 1
  {
    if j > 0 {
      ImproveSweepUpToCell(n, gamma, V, Q0, P0, i, j);
    } else if i > 0 {
      ImproveSweepUpToNextRow(n, gamma, V, Q0, P0, i);
    } else {
      ImproveSweepUpToStart(n, gamma, V, Q0, P0);
    }
  }

  lemma ImproveSweepUpToStart(n: nat, gamma: real, V: map<Pos, real>, Q0: map<Pos, Row>, P0: map<Pos, Row>)
    requires CoversValues(n, V) && CoversRows(n, Q0) && CoversRows(n, P0)
    ensures ImproveSweep(n, gamma, V, Q0, P0, 0, 0) == ImprovedBefore(n, gamma, V, Q0, P0, Pos(0, 0))
  {
    assert ImprovedUpTo(n, gamma, V, Q0, Pos(0, 0)) == Q0;
    assert GreedyUpTo(n, ImprovedRows(n, gamma, V, Q0), P0, Pos(0, 0)) == P0;
  }

  lemma {:induction false} ImproveSweepUpToCell(n: nat, gamma: real, V: map<Pos, real>, Q0: map<Pos, Row>, P0: map<Pos, Row>, i: nat, j: nat)
    requires CoversValues(n, V) && CoversRows(n, Q0) && CoversRows(n, P0) && Stage(n, i, j) && j > 0
    ensures ImproveSweep(n, gamma, V, Q0, P0, i, j) == ImprovedBefore(n, gamma, V, Q0, P0, Pos(i, j))
    decreases i, j, 0
  {
    ImproveSweepUpTo(n, gamma, V, Q0, P0, i, j - 1);
    ImproveCellUpTo(n, gamma, V, Q0, P0, i, j - 1);
  }

  lemma {:induction false} ImproveSweepUpToNextRow(n: nat, gamma: real, V: map<Pos, real>, Q0: map<Pos, Row>, P0: map<Pos, Row>, i: nat)
    requires CoversValues(n, V) && CoversRows(n, Q0) && CoversRows(n, P0) && 0 < i <= n
    ensures ImproveSweep(n, gamma, V, Q0, P0, i, 0) == ImprovedBefore(n, gamma, V, Q0, P0, Pos(i, 0))
    decreases i, 0, 0
  {
    assert ImproveSweep(n, gamma, V, Q0, P0, i, 0) == ImproveSweep(n, gamma, V, Q0, P0, i - 1, n);
    ImproveSweepUpTo(n, gamma, V, Q0, P0, i - 1, n);
    ImprovedBeforeNextRow(n, gamma, V, Q0, P0, i - 1);
  }

  lemma ImprovedBeforeNextRow(n: nat, gamma: real, V: map<Pos, real>, Q0: map<Pos, Row>, P0: map<Pos, Row>, i: nat)
    requires CoversValues(n, V) && CoversRows(n, Q0) && CoversRows(n, P0) && i < n
    ensures ImprovedBefore(n, gamma, V, Q0, P0, Pos(i, n)) == ImprovedBefore(n, gamma, V, Q0, P0, Pos(i + 1, 0))
  {
    var Q1 := ImprovedRows(n, gamma, V, Q0);
    ImprovedUpToNextRow(n, gamma, V, Q0, i);
    GreedyUpToNextRow(n, Q1, P0, i);
    SameChoicesUpToNextRow(n, Q1, P0, i);
  }

  /** The step of ImproveSweepUpTo at cell (i, j). */
  lemma ImproveCellUpTo(n: nat, gamma: real, V: map<Pos, real>, Q0: map<Pos, Row>, P0: map<Pos, Row>, i: nat, j: nat)
    requires CoversValues(n, V) && CoversRows(n, Q0) && CoversRows(n, P0) && i < n && j < n
    ensures ImproveCellState(n, gamma, V, ImprovedBefore(n, gamma, V, Q0, P0, Pos(i, j)), Pos(i, j)) ==
            ImprovedBefore(n, gamma, V, Q0, P0, Pos(i, j + 1))
  {
    var Q1 := ImprovedRows(n, gamma, V, Q0);
    var c := Pos(i, j);
    assert InGrid(n, c);
    assert GreedyUpTo(n, Q1, P0, c)[c] == P0[c];
    assert Swept(n, c) ==> Q1[c] == LookaheadRow(n, gamma, V, c);
    ImprovedUpToStep(n, gamma, V, Q0, i, j);
    GreedyUpToStep(n, Q1, P0, i, j);
    SameChoicesUpToStep(n, Q1, P0, i, j);
  }

  /** A whole improvement loop: Q is improved, the policy is greedy over
      the improved Q, and the flag says whether no choice changed. */
  lemma ImproveSweepWhole(n: nat, gamma: real, V: map<Pos, real>, Q0: map<Pos, Row>, P0: map<Pos, Row>)
    requires CoversValues(n, V) && CoversRows(n, Q0) && CoversRows(n, P0)
    ensures var r := ImproveSweep(n, gamma, V, Q0, P0, n, 0);
      r.Q == ImprovedRows(n, gamma, V, Q0) && r.policy == GreedyPolicy(n, r.Q, P0) && r.stable == SameChoices(n, r.Q, P0)
  {
    var Q1 := ImprovedRows(n, gamma, V, Q0);
    ImproveSweepUpTo(n, gamma, V, Q0, P0, n, 0);
    ImprovedUpToAll(n, gamma, V, Q0);
    GreedyUpToAll(n, Q1, P0);
    SameChoicesUpToAll(n, Q1, P0);
  }

  /** A second improvement against the same values reports stable and
      changes neither Q nor the policy. */
  lemma ImproveTwiceIsStable(n: nat, gamma: real, V: map<Pos, real>, Q0: map<Pos, Row>, P0: map<Pos, Row>)
    requires CoversValues(n, V) && CoversRows(n, Q0) && CoversRows(n, P0)
    ensures var r1 := ImproveSweep(n, gamma, V, Q0, P0, n, 0);
      var r2 := ImproveSweep(n, gamma, V, r1.Q, r1.policy, n, 0);
      r2.stable && r2.Q == r1.Q && r2.policy == r1.policy
  {
    var r1 := ImproveSweep(n, gamma, V, Q0, P0, n, 0);
    ImproveSweepWhole(n, gamma, V, Q0, P0);
    ImproveSweepWhole(n, gamma, V, r1.Q, r1.policy);
    assert ImprovedRows(n, gamma, V, r1.Q) == r1.Q;
    GreedyPolicyIdempotent(n, r1.Q, P0);
  }

  /** The three tables Policy Iteration keeps. */
  datatype Tables = Tables(V: map<Pos, real>, Q: map<Pos, Row>, policy: map<Pos, Row>)

  ghost predicate Covers(n: nat, t: Tables) {
    CoversValues(n, t.V) && CoversRows(n, t.Q) && CoversRows(n, t.policy)
  }

  /** One round of the main loop: evaluate the policy, improve it against
      the new values, and report whether no choice changed. */
  function Round(n: nat, gamma: real, fuel: nat, t: Tables): (r: (Tables, bool))
    requires Covers(n, t)
    ensures Covers(n, r.0)
  {
    var V1 := Evaluated(n, gamma, t.policy, t.V, THETA, fuel);
    var Q1 := ImprovedRows(n, gamma, V1, t.Q);
    (Tables(V1, Q1, GreedyPolicy(n, Q1, t.policy)), SameChoices(n, Q1, t.policy))
  }

  /** The tables at the end of the main loop, entered at round i: rounds
      are made until one reports stable or maxIterations rounds are made. */
  function RunFrom(n: nat, gamma: real, fuel: nat, t: Tables, maxIterations: int, i: nat): (r: Tables)
    requires Covers(n, t)
    ensures Covers(n, r)
    decreases if maxIterations > i then maxIterations - i else 0
  {
    if i >= maxIterations then t
    else
      var next := Round(n, gamma, fuel, t);
      if next.1 then next.0 else RunFrom(n, gamma, fuel, next.0, maxIterations, i + 1)
  }

  /** Evaluating a deterministic policy backs up the look-ahead of its
      single action. */
  lemma EvaluateDeterministic(n: nat, gamma: real, P: map<Pos, Row>, V: map<Pos, real>, s: Pos)
    requires CoversRows(n, P) && CoversValues(n, V) && Deterministic(n, P) && Swept(n, s)
    ensures BackupValue(n, gamma, Expected(P), V, s) == Lookahead(n, gamma, V, s, ACTIONS[FirstArgMax(P[s])])
  {
    var row := LookaheadRow(n, gamma, V, s);
    DotOneHot(row, FirstArgMax(P[s]));
  }

  /** Evaluating the uniform starting policy backs up the mean look-ahead. */
  lemma EvaluateUniform(n: nat, gamma: real, V: map<Pos, real>, s: Pos)
    requires CoversValues(n, V) && InGrid(n, s)
    ensures BackupValue(n, gamma, Expected(ConstantRows(n, UNIFORM)), V, s) ==
      (Lookahead(n, gamma, V, s, Up) + Lookahead(n, gamma, V, s, Down) +
       Lookahead(n, gamma, V, s, Left) + Lookahead(n, gamma, V, s, Right)) / 4.0
  {
    DotUniform(LookaheadRow(n, gamma, V, s));
  }

  /** After every evaluation sweep, each swept cell holds the expectation,
      under its policy row, of the look-ahead row it saw in place: new
      values for the cells before it, values of the previous sweep for the
      rest. Goal and trap cells keep their value. */
  lemma EvaluationSweepInPlace(n: nat, gamma: real, P: map<Pos, Row>, V: map<Pos, real>, k: nat, s: Pos)
    requires CoversRows(n, P) && CoversValues(n, V) && k >= 1 && InGrid(n, s)
    ensures var prev := ValuesAfter(n, gamma, Expected(P), V, k - 1);
      var Vk := ValuesAfter(n, gamma, Expected(P), V, k);
      if IsTerminal(s) then Vk[s] == V[s] else Vk[s] == Dot(P[s], InPlaceRow(n, gamma, prev, Vk, s))
  {
    if IsTerminal(s) {
      SweepsKeepTerminalValue(n, gamma, Expected(P), V, k, s);
    } else {
      SweepBacksUp(n, gamma, Expected(P), ValuesAfter(n, gamma, Expected(P), V, k - 1), n, 0, s);
    }
  }

  /** An evaluation that stops before its budget is spent does so because
      its last sweep moved no swept cell by more than theta. */
  lemma EvaluationConverged(n: nat, gamma: real, P: map<Pos, Row>, V: map<Pos, real>, theta: real, fuel: nat)
    requires CoversRows(n, P) && CoversValues(n, V)
    ensures var k := SweepCount(n, gamma, Expected(P), V, EvaluationRule(theta, fuel), 0);
      k >= 1 &&
      (k < fuel ==> forall s :: Swept(n, s) ==>
        Abs(ValuesAfter(n, gamma, Expected(P), V, k - 1)[s] - ValuesAfter(n, gamma, Expected(P), V, k)[s]) <= theta)
  {
    var rule := EvaluationRule(theta, fuel);
    SweepCountStops(n, gamma, Expected(P), V, rule);
    DeltaOfIsLargestChange(n, gamma, Expected(P), V, SweepCount(n, gamma, Expected(P), V, rule, 0));
  }

  /** After a round, every swept cell puts all its mass on the first action
      of largest look-ahead against the freshly evaluated values, and the
      goal and trap rows are unchanged. */
  lemma RoundIsGreedy(n: nat, gamma: real, fuel: nat, t: Tables, s: Pos)
    requires Covers(n, t) && InGrid(n, s)
    ensures var r := Round(n, gamma, fuel, t).0;
      if Swept(n, s) then
        exists a: ActionIndex :: r.policy[s] == OneHot(a) && IsFirstMax(LookaheadRow(n, gamma, r.V, s), a)
      else r.policy[s] == t.policy[s] && r.Q[s] == t.Q[s]
  {
    var r := Round(n, gamma, fuel, t).0;
    GreedyPolicyIsGreedy(n, r.Q, t.policy, s);
  }

  /** The policy after a round is deterministic, and a round started from
      a deterministic policy reports stable exactly when it leaves the
      policy unchanged. */
  lemma StableIffUnchanged(n: nat, gamma: real, fuel: nat, t: Tables)
    requires Covers(n, t)
    ensures Deterministic(n, Round(n, gamma, fuel, t).0.policy)
    ensures Deterministic(n, t.policy) ==>
      (Round(n, gamma, fuel, t).1 <==> Round(n, gamma, fuel, t).0.policy == t.policy)
  {
    var r := Round(n, gamma, fuel, t).0;
    GreedyIsDeterministic(n, r.Q, t.policy);
    if Deterministic(n, t.policy) {
      SameChoicesIffUnchanged(n, r.Q, t.policy);
    }
  }

  /** A run that makes at least one round ends on a deterministic policy,
      either because a round reported stable or because the budget ran
      out. */
  lemma {:induction false} RunEndsDeterministic(n: nat, gamma: real, fuel: nat, t: Tables, maxIterations: int, i: nat)
    requires Covers(n, t) && i < maxIterations
    ensures Deterministic(n, RunFrom(n, gamma, fuel, t, maxIterations, i).policy)
    decreases maxIterations - i
  {
    var next := Round(n, gamma, fuel, t);
    StableIffUnchanged(n, gamma, fuel, t);
    if !next.1 && i + 1 < maxIterations {
      RunEndsDeterministic(n, gamma, fuel, next.0, maxIterations, i + 1);
    }
  }

  /** A round as a step of a loop on tables: on tables that cover the grid
      it is `Round`; the loop stops on any other tables, which a run never
      reaches. */
  ghost function RoundStep(n: nat, gamma: real, fuel: nat): (step: Tables -> (Tables, bool))
    ensures forall t :: Covers(n, t) ==> step(t) == Round(n, gamma, fuel, t)
  {
    t => if Covers(n, t) then Round(n, gamma, fuel, t) else (t, true)
  }

  /** The run is the loop of `RoundStep`, round for round. */
  lemma {:induction false} RunIsLoop(n: nat, gamma: real, fuel: nat, t: Tables, maxIterations: int, i: nat)
    requires Covers(n, t)
    ensures RunFrom(n, gamma, fuel, t, maxIterations, i) == Iteration.Loop(RoundStep(n, gamma, fuel), t, maxIterations, i)
    decreases if maxIterations > i then maxIterations - i else 0
  {
    if i < maxIterations {
      var next := Round(n, gamma, fuel, t);
      assert RoundStep(n, gamma, fuel)(t) == next;
      if !next.1 {
        RunIsLoop(n, gamma, fuel, next.0, maxIterations, i + 1);
      }
    }
  }

  /** Tables that cover the grid still cover it after a round. */
  lemma RoundsKeepCover(n: nat, gamma: real, fuel: nat)
    ensures forall x :: Covers(n, x) ==> Covers(n, RoundStep(n, gamma, fuel)(x).0)
  {
  }

  /** The tables after any number of rounds from tables that cover the
      grid still cover it, so each of those rounds is a `Round`. */
  lemma AfterCovers(n: nat, gamma: real, fuel: nat, t: Tables, j: nat)
    requires Covers(n, t)
    ensures Covers(n, Iteration.After(RoundStep(n, gamma, fuel), t, j))
  {
    RoundsKeepCover(n, gamma, fuel);
    Iteration.AfterKeeps(RoundStep(n, gamma, fuel), x => Covers(n, x), t, j);
  }

  /** The tables after j rounds made one after the other from t; they
      keep covering the grid. */
  ghost function TablesAfter(n: nat, gamma: real, fuel: nat, t: Tables, j: nat): (r: Tables)
    requires Covers(n, t)
    ensures Covers(n, r)
  {
    AfterCovers(n, gamma, fuel, t, j);
    Iteration.After(RoundStep(n, gamma, fuel), t, j)
  }

  /** The number of rounds a run entered at round i makes: between one and
      its budget when budget is left. */
  ghost function RoundsMade(n: nat, gamma: real, fuel: nat, t: Tables, maxIterations: int, i: nat): (m: nat)
    ensures i < maxIterations ==> 1 <= m <= maxIterations - i
  {
    Iteration.Made(RoundStep(n, gamma, fuel), t, maxIterations, i)
  }

  /** A run with budget left makes m rounds, 1 <= m <= max_iterations - i
      (`RoundsMade`).  Its result is that of its last round, made on the
      tables after the m - 1 rounds before it; every one of those earlier
      rounds reported unstable; and a run that makes fewer rounds than its
      budget ends because its last round reported stable. */
  lemma RunEndsStable(n: nat, gamma: real, fuel: nat, t: Tables, maxIterations: int, i: nat)
    requires Covers(n, t) && i < maxIterations
    ensures RunFrom(n, gamma, fuel, t, maxIterations, i) ==
      Round(n, gamma, fuel, TablesAfter(n, gamma, fuel, t, RoundsMade(n, gamma, fuel, t, maxIterations, i) - 1)).0
    ensures forall j: nat :: j < RoundsMade(n, gamma, fuel, t, maxIterations, i) - 1 ==>
      !Round(n, gamma, fuel, TablesAfter(n, gamma, fuel, t, j)).1
    ensures RoundsMade(n, gamma, fuel, t, maxIterations, i) < maxIterations - i ==>
      Round(n, gamma, fuel, TablesAfter(n, gamma, fuel, t, RoundsMade(n, gamma, fuel, t, maxIterations, i) - 1)).1
  {
    RunIsLastRound(n, gamma, fuel, t, maxIterations, i);
    RunEarlierRoundsUnstable(n, gamma, fuel, t, maxIterations, i);
    RunEndsEarlyOnStable(n, gamma, fuel, t, maxIterations, i);
  }

  /** A run that makes fewer rounds than its budget ends on a round that
      reported stable. */
  lemma RunEndsEarlyOnStable(n: nat, gamma: real, fuel: nat, t: Tables, maxIterations: int, i: nat)
    requires Covers(n, t) && i < maxIterations
    ensures RoundsMade(n, gamma, fuel, t, maxIterations, i) < maxIterations - i ==>
      Round(n, gamma, fuel, TablesAfter(n, gamma, fuel, t, RoundsMade(n, gamma, fuel, t, maxIterations, i) - 1)).1
  {
    Iteration.LoopStopsEarlyOnStop(RoundStep(n, gamma, fuel), t, maxIterations, i);
    forall j: nat | j + 1 == RoundsMade(n, gamma, fuel, t, maxIterations, i) < maxIterations - i
      ensures Round(n, gamma, fuel, TablesAfter(n, gamma, fuel, t, j)).1
    {
      // The tables after j rounds cover the grid, so the step there is a `Round`.
      assert Covers(n, TablesAfter(n, gamma, fuel, t, j));
    }
  }

  /** The run's result is that of its last round. */
  lemma RunIsLastRound(n: nat, gamma: real, fuel: nat, t: Tables, maxIterations: int, i: nat)
    requires Covers(n, t) && i < maxIterations
    ensures RunFrom(n, gamma, fuel, t, maxIterations, i) ==
      Round(n, gamma, fuel, TablesAfter(n, gamma, fuel, t, RoundsMade(n, gamma, fuel, t, maxIterations, i) - 1)).0
  {
    RunIsLoop(n, gamma, fuel, t, maxIterations, i);
    Iteration.LoopIsLastRound(RoundStep(n, gamma, fuel), t, maxIterations, i);
    forall j: nat | j + 1 == RoundsMade(n, gamma, fuel, t, maxIterations, i)
      ensures RunFrom(n, gamma, fuel, t, maxIterations, i) == Round(n, gamma, fuel, TablesAfter(n, gamma, fuel, t, j)).0
    {
      // The tables after j rounds cover the grid, so the step there is a `Round`.
      assert Covers(n, TablesAfter(n, gamma, fuel, t, j));
    }
  }

  /** Every round of a run before its last reported unstable. */
  lemma RunEarlierRoundsUnstable(n: nat, gamma: real, fuel: nat, t: Tables, maxIterations: int, i: nat)
    requires Covers(n, t) && i < maxIterations
    ensures forall j: nat :: j < RoundsMade(n, gamma, fuel, t, maxIterations, i) - 1 ==>
      !Round(n, gamma, fuel, TablesAfter(n, gamma, fuel, t, j)).1
  {
    Iteration.LoopGoesOnBeforeLastRound(RoundStep(n, gamma, fuel), t, maxIterations, i);
    forall j: nat | j < RoundsMade(n, gamma, fuel, t, maxIterations, i) - 1
      ensures !Round(n, gamma, fuel, TablesAfter(n, gamma, fuel, t, j)).1
    {
      // The tables after j rounds cover the grid, so the step there is a `Round`.
      assert Covers(n, TablesAfter(n, gamma, fuel, t, j));
    }
  }

  class PolicyIteration {
    const lake: FrozenLake
    const gamma: real
    const gridSize: nat
    /** Policy rows, one probability per action. */
    var policy: map<Pos, Row>
    /** State values. */
    var V: map<Pos, real>
    /** Action values, one row per cell. */
    var Q: map<Pos, Row>

    ghost predicate Valid()
      reads this, lake, lake.grid
    {
      lake.Valid() && gridSize == lake.gridSize &&
      CoversValues(gridSize, V) && CoversRows(gridSize, Q) && CoversRows(gridSize, policy)
    }

    constructor (frozenLake: FrozenLake, gamma: real)
      requires frozenLake.Valid()
      ensures Valid() && lake == frozenLake && this.gamma == gamma && gridSize == frozenLake.gridSize
      ensures policy == ConstantRows(gridSize, UNIFORM)
      ensures V == ConstantValues(gridSize, 0.0) && Q == ConstantRows(gridSize, ZERO_ROW)
    {
      lake := frozenLake;
      this.gamma := gamma;
      gridSize := frozenLake.gridSize;
      var p := 1.0 / (|frozenLake.actions| as real);
      policy := ConstantRows(frozenLake.gridSize, Row(p, p, p, p));
      V := ConstantValues(frozenLake.gridSize, 0.0);
      Q := ConstantRows(frozenLake.gridSize, ZERO_ROW);
    }

    /** The tables as one value. */
    function Snapshot(): (t: Tables)
      reads this
      ensures t.V == V && t.Q == Q && t.policy == policy
    {
      Tables(V, Q, policy)
    }

    /** Puts the lake on s, steps with the k-th action, puts the lake back
        and returns reward + gamma * V[next]. */
    method ProbeAction(s: Pos, k: ActionIndex) returns (actionValue: real)
      requires Valid() && InGrid(gridSize, s)
      modifies lake
      ensures Valid() && lake.state == old(lake.state)
      ensures actionValue == Lookahead(gridSize, gamma, V, s, ACTIONS[k])
    {
      var next, reward, done := Probe(lake, s, lake.actions[k]);
      actionValue := reward + gamma * V[next];
    }

    /** Probes the actions from s in order and accumulates the policy-weighted
        look-ahead, starting from 0. */
    method ExpectedBackup(s: Pos) returns (newV: real)
      requires Valid() && InGrid(gridSize, s)
      modifies lake
      ensures Valid() && lake.state == old(lake.state)
      ensures newV == BackupValue(gridSize, gamma, Expected(policy), V, s)
    {
      ghost var target := LookaheadRow(gridSize, gamma, V, s);
      newV := 0.0;
      var k := 0;
      while k < 4
        invariant 0 <= k <= 4 && Valid() && lake.state == old(lake.state)
        invariant newV == PrefixDot(policy[s], target, k)
      {
        var actionValue := ProbeAction(s, k);
        newV := newV + policy[s].Get(k) * actionValue;
        k := k + 1;
      }
      PrefixDotWhole(policy[s], target);
    }

    /** The body of an evaluation sweep for one cell: goal and trap cells
        are skipped; any other cell gets its expected backup and delta is
        raised to the size of its change if that is larger. */
    method EvaluateCell(s: Pos, delta: real) returns (newDelta: real)
      requires Valid() && InGrid(gridSize, s)
      modifies this, lake
      ensures Valid() && lake.state == old(lake.state) && policy == old(policy) && Q == old(Q)
      ensures V == StepValues(gridSize, gamma, Expected(policy), old(V), s)
      ensures newDelta == StepDelta(gridSize, gamma, Expected(policy), old(V), delta, s)
    {
      IsTrapIsMembership(s);
      newDelta := delta;
      if !(s == lake.goal || s in lake.traps) {
        var v := V[s];
        var newV := ExpectedBackup(s);
        V := V[s := newV];
        newDelta := RealMax(delta, Abs(v - V[s]));
      }
    }

    /** V holds what an in-place evaluation sweep that started from V0 has
        made of it by the time it reaches (i, j), and d is its running
        delta. */
    ghost predicate SweptTo(V0: map<Pos, real>, i: nat, j: nat, d: real)
      reads this
    {
      CoversValues(gridSize, V0) && CoversRows(gridSize, policy) && Stage(gridSize, i, j) &&
      V == SweepValues(gridSize, gamma, Expected(policy), V0, i, j) &&
      d == SweepDelta(gridSize, gamma, Expected(policy), V0, i, j)
    }

    /** Cell (i, j) of an evaluation sweep that started from V0. */
    method SweepCell(i: nat, j: nat, ghost V0: map<Pos, real>, delta: real) returns (newDelta: real)
      requires Valid() && i < gridSize && j < gridSize && SweptTo(V0, i, j, delta)
      modifies this, lake
      ensures Valid() && lake.state == old(lake.state) && policy == old(policy) && Q == old(Q)
      ensures SweptTo(V0, i, j + 1, newDelta)
    {
      newDelta := EvaluateCell(Pos(i, j), delta);
    }

    /** The inner loop of an evaluation sweep: the cells of row i, left to
        right. */
    method SweepRow(i: nat, ghost V0: map<Pos, real>, delta: real) returns (newDelta: real)
      requires Valid() && i < gridSize && SweptTo(V0, i, 0, delta)
      modifies this, lake
      ensures Valid() && lake.state == old(lake.state) && policy == old(policy) && Q == old(Q)
      ensures SweptTo(V0, i + 1, 0, newDelta)
    {
      newDelta := delta;
      var j := 0;
      while j < gridSize
        invariant 0 <= j <= gridSize && Valid()
        invariant lake.state == old(lake.state) && policy == old(policy) && Q == old(Q)
        invariant SweptTo(V0, i, j, newDelta)
      {
        newDelta := SweepCell(i, j, V0, newDelta);
        j := j + 1;
      }
    }

    /** One in-place, row-major evaluation sweep; returns the largest change
        it made. */
    method SweepGrid() returns (delta: real)
      requires Valid()
      modifies this, lake
      ensures Valid() && lake.state == old(lake.state) && policy == old(policy) && Q == old(Q)
      ensures V == SweepValues(gridSize, gamma, Expected(policy), old(V), gridSize, 0)
      ensures delta == SweepDelta(gridSize, gamma, Expected(policy), old(V), gridSize, 0)
    {
      delta := 0.0;
      var i := 0;
      while i < gridSize
        invariant 0 <= i <= gridSize && Valid()
        invariant lake.state == old(lake.state) && policy == old(policy) && Q == old(Q)
        invariant SweptTo(old(V), i, 0, delta)
      {
        delta := SweepRow(i, old(V), delta);
        i := i + 1;
      }
    }

    /** Sweep k + 1 of an evaluation that started from V0. */
    method NextSweep(ghost V0: map<Pos, real>, ghost k: nat) returns (delta: real)
      requires Valid() && CoversValues(gridSize, V0)
      requires V == ValuesAfter(gridSize, gamma, Expected(policy), V0, k)
      modifies this, lake
      ensures Valid() && lake.state == old(lake.state) && policy == old(policy) && Q == old(Q)
      ensures V == ValuesAfter(gridSize, gamma, Expected(policy), V0, k + 1)
      ensures delta == DeltaOf(gridSize, gamma, Expected(policy), V0, k + 1)
    {
      delta := SweepGrid();
    }

    /** Sweeps until the delta of a sweep is at most theta, or `fuel` sweeps
        are made. */
    method PolicyEvaluation(theta: real, fuel: nat)
      requires Valid()
      modifies this, lake
      ensures Valid() && lake.state == old(lake.state) && policy == old(policy) && Q == old(Q)
      ensures V == Evaluated(gridSize, gamma, policy, old(V), theta, fuel)
    {
      var sweeps := 0;
      while true
        invariant Valid() && lake.state == old(lake.state) && policy == old(policy) && Q == old(Q)
        invariant V == ValuesAfter(gridSize, gamma, Expected(policy), old(V), sweeps)
        invariant SweepCount(gridSize, gamma, Expected(policy), old(V), EvaluationRule(theta, fuel), sweeps)
               == SweepCount(gridSize, gamma, Expected(policy), old(V), EvaluationRule(theta, fuel), 0)
        decreases if fuel > sweeps then fuel - sweeps else 0
      {
        var delta := NextSweep(old(V), sweeps);
        sweeps := sweeps + 1;
        if !(delta > theta) || sweeps >= fuel {
          break;
        }
      }
    }

    /** Probes the actions from s in order, writing each look-ahead into the
        Q row of s. */
    method ImproveActions(s: Pos)
      requires Valid() && InGrid(gridSize, s)
      modifies this, lake
      ensures Valid() && lake.state == old(lake.state) && V == old(V) && policy == old(policy)
      ensures Q == old(Q)[s := LookaheadRow(gridSize, gamma, V, s)]
    {
      ghost var Q0 := Q;
      var k := 0;
      while k < 4
        invariant 0 <= k <= 4 && Valid() && lake.state == old(lake.state)
        invariant V == old(V) && policy == old(policy)
        invariant s in Q && Q == Q0[s := Q[s]]
        invariant forall m: ActionIndex :: Q[s].Get(m) == if m < k then Lookahead(gridSize, gamma, V, s, ACTIONS[m]) else Q0[s].Get(m)
      {
        var actionValue := ProbeAction(s, k);
        Q := Q[s := Q[s].Set(k, actionValue)];
        k := k + 1;
      }
      LookaheadRowFromEntries(gridSize, gamma, V, s, Q[s]);
    }

    /** Writes the one-hot row of action best into the policy of s, entry
        by entry. */
    method WriteOneHot(s: Pos, best: ActionIndex)
      requires Valid() && InGrid(gridSize, s)
      modifies this
      ensures Valid() && V == old(V) && Q == old(Q)
      ensures policy == old(policy)[s := OneHot(best)]
    {
      ghost var P1 := policy;
      var k := 0;
      while k < 4
        invariant 0 <= k <= 4 && Valid() && V == old(V) && Q == old(Q)
        invariant s in policy && policy == P1[s := policy[s]]
        invariant forall m: ActionIndex :: policy[s].Get(m) == if m < k then OneHot(best).Get(m) else P1[s].Get(m)
      {
        policy := policy[s := policy[s].Set(k, if k == best then 1.0 else 0.0)];
        k := k + 1;
      }
      RowsEqual(policy[s], OneHot(best));
    }

    /** The body of an improvement for one cell: goal and trap cells are
        skipped; any other cell notes its most probable action, gets its
        look-ahead row in Q and the one-hot row of its first best action,
        and clears the stable flag if that action differs. */
    method ImproveCell(s: Pos, stable: bool) returns (newStable: bool)
      requires Valid() && InGrid(gridSize, s)
      modifies this, lake
      ensures Valid() && lake.state == old(lake.state) && V == old(V)
      ensures Improvement(Q, policy, newStable) == ImproveCellState(gridSize, gamma, V, Improvement(old(Q), old(policy), stable), s)
    {
      IsTrapIsMembership(s);
      newStable := stable;
      if !(s == lake.goal || s in lake.traps) {
        var oldAction := FirstArgMax(policy[s]);
        ImproveActions(s);
        var bestAction := FirstArgMax(Q[s]);
        WriteOneHot(s, bestAction);
        if oldAction != bestAction {
          newStable := false;
        }
      }
    }

    /** Q, the policy and the flag hold what an improvement started on Q0
        and P0 has made of them by the time it reaches (i, j). */
    ghost predicate ImprovedTo(Q0: map<Pos, Row>, P0: map<Pos, Row>, i: nat, j: nat, stable: bool)
      reads this
    {
      CoversValues(gridSize, V) && CoversRows(gridSize, Q0) && CoversRows(gridSize, P0) && Stage(gridSize, i, j) &&
      Improvement(Q, policy, stable) == ImproveSweep(gridSize, gamma, V, Q0, P0, i, j)
    }

    /** Cell (i, j) of an improvement that started on Q0 and P0. */
    method ImproveStep(i: nat, j: nat, ghost Q0: map<Pos, Row>, ghost P0: map<Pos, Row>, stable: bool) returns (newStable: bool)
      requires Valid() && i < gridSize && j < gridSize && ImprovedTo(Q0, P0, i, j, stable)
      modifies this, lake
      ensures Valid() && lake.state == old(lake.state) && V == old(V)
      ensures ImprovedTo(Q0, P0, i, j + 1, newStable)
    {
      newStable := ImproveCell(Pos(i, j), stable);
    }

    /** The inner loop of an improvement: the cells of row i. */
    method ImproveRow(i: nat, ghost Q0: map<Pos, Row>, ghost P0: map<Pos, Row>, stable: bool) returns (newStable: bool)
      requires Valid() && i < gridSize && ImprovedTo(Q0, P0, i, 0, stable)
      modifies this, lake
      ensures Valid() && lake.state == old(lake.state) && V == old(V)
      ensures ImprovedTo(Q0, P0, i + 1, 0, newStable)
    {
      newStable := stable;
      var j := 0;
      while j < gridSize
        invariant 0 <= j <= gridSize && Valid() && lake.state == old(lake.state) && V == old(V)
        invariant ImprovedTo(Q0, P0, i, j, newStable)
      {
        newStable := ImproveStep(i, j, Q0, P0, newStable);
        j := j + 1;
      }
    }

    /** Replaces every swept Q row by its look-ahead row and every swept
        policy row by the one-hot row of its first best action; returns
        whether no cell's most probable action changed. */
    method PolicyImprovement() returns (stable: bool)
      requires Valid()
      modifies this, lake
      ensures Valid() && lake.state == old(lake.state) && V == old(V)
      ensures Q == ImprovedRows(gridSize, gamma, V, old(Q))
      ensures policy == GreedyPolicy(gridSize, Q, old(policy))
      ensures stable == SameChoices(gridSize, Q, old(policy))
    {
      stable := true;
      var i := 0;
      while i < gridSize
        invariant 0 <= i <= gridSize && Valid() && lake.state == old(lake.state) && V == old(V)
        invariant ImprovedTo(old(Q), old(policy), i, 0, stable)
      {
        stable := ImproveRow(i, old(Q), old(policy), stable);
        i := i + 1;
      }
      ImproveSweepWhole(gridSize, gamma, V, old(Q), old(policy));
    }

    /** One round of the main loop: evaluation with the default threshold,
        then improvement. */
    method EvaluateAndImprove(fuel: nat) returns (stable: bool)
      requires Valid()
      modifies this, lake
      ensures Valid() && lake.state == old(lake.state)
      ensures (Snapshot(), stable) == Round(gridSize, gamma, fuel, old(Snapshot()))
    {
      PolicyEvaluation(THETA, fuel);
      stable := PolicyImprovement();
    }

    /** Rounds of evaluation and improvement until one reports stable or
        maxIterations rounds are made; returns the policy, V and Q. */
    method Run(maxIterations: int, fuel: nat) returns (pol: map<Pos, Row>, values: map<Pos, real>, q: map<Pos, Row>)
      requires Valid()
      modifies this, lake
      ensures Valid() && lake.state == old(lake.state)
      ensures Snapshot() == RunFrom(gridSize, gamma, fuel, old(Snapshot()), maxIterations, 0)
      ensures pol == policy && values == V && q == Q
    {
      var i := 0;
      while i < maxIterations
        invariant Valid() && lake.state == old(lake.state)
        invariant RunFrom(gridSize, gamma, fuel, Snapshot(), maxIterations, i)
               == RunFrom(gridSize, gamma, fuel, old(Snapshot()), maxIterations, 0)
        decreases maxIterations - i
      {
        var stable := EvaluateAndImprove(fuel);
        if stable {
          break;
        }
        i := i + 1;
      }
      pol, values, q := policy, V, Q;
    }
  }
}
