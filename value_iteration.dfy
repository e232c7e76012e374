/** Value Iteration on the frozen lake: in-place sweeps of optimality
    backups until the largest change of a sweep drops below a threshold or
    an iteration budget is spent, then a deterministic greedy policy read
    off the Q table. */
module ValueIter {
  import opened Lake
  import opened Rows
  import opened Bellman
  import opened Greedy

  /** After every sweep, each swept cell holds the largest entry of its Q
      row, and that row is the look-ahead the cell saw in place: new values
      for the cells before it, values of the previous sweep for the rest. */
  lemma SweepConsistent(n: nat, gamma: real, V: map<Pos, real>, Q: map<Pos, Row>, k: nat, s: Pos)
    requires CoversValues(n, V) && CoversRows(n, Q) && k >= 1 && Swept(n, s)
    ensures var prev := ValuesAfter(n, gamma, Optimal, V, k - 1);
      var Vk := ValuesAfter(n, gamma, Optimal, V, k);
      var Qk := RowsAfter(n, gamma, V, Q, k);
      Qk[s] == InPlaceRow(n, gamma, prev, Vk, s) && Vk[s] == RowMax(Qk[s])
  {
    var prev := ValuesAfter(n, gamma, Optimal, V, k - 1);
    SweepBacksUp(n, gamma, Optimal, prev, n, 0, s);
    SweepRowsBackUp(n, gamma, prev, RowsAfter(n, gamma, V, Q, k - 1), n, 0, s);
  }

  /** A run that stops before its budget is spent does so because its last
      sweep moved no swept cell by seuil or more. */
  lemma RunStopsConverged(n: nat, gamma: real, V: map<Pos, real>, seuil: real, maxIterations: int)
    requires CoversValues(n, V)
    ensures var k := SweepCount(n, gamma, Optimal, V, StopRule(seuil, true, maxIterations), 0);
      k >= 1 &&
      (k < maxIterations ==> forall s :: Swept(n, s) ==>
        Abs(ValuesAfter(n, gamma, Optimal, V, k - 1)[s] - ValuesAfter(n, gamma, Optimal, V, k)[s]) < seuil)
  {
    var rule := StopRule(seuil, true, maxIterations);
    SweepCountStops(n, gamma, Optimal, V, rule);
    DeltaOfIsLargestChange(n, gamma, Optimal, V, SweepCount(n, gamma, Optimal, V, rule, 0));
  }

  /** After a run and the policy extraction, the policy of every swept
      cell is deterministic, and the Q value of its action is the cell's
      value. */
  lemma RunPolicyAttainsValue(n: nat, gamma: real, V: map<Pos, real>, Q: map<Pos, Row>, P: map<Pos, Row>, k: nat, s: Pos)
    requires CoversValues(n, V) && CoversRows(n, Q) && CoversRows(n, P) && k >= 1 && Swept(n, s)
    ensures var Vk := ValuesAfter(n, gamma, Optimal, V, k);
      var Qk := RowsAfter(n, gamma, V, Q, k);
      exists a: ActionIndex :: GreedyPolicy(n, Qk, P)[s] == OneHot(a) && Qk[s].Get(a) == Vk[s]
  {
    SweepConsistent(n, gamma, V, Q, k, s);
    GreedyPolicyIsGreedy(n, RowsAfter(n, gamma, V, Q, k), P, s);
  }

  /** Goal and trap cells are never backed up: after any number of sweeps
      and the policy extraction, their value, Q row and policy row are the
      ones they started with. */
  lemma RunKeepsTerminalCells(n: nat, gamma: real, V: map<Pos, real>, Q: map<Pos, Row>, P: map<Pos, Row>, k: nat, s: Pos)
    requires CoversValues(n, V) && CoversRows(n, Q) && CoversRows(n, P) && InGrid(n, s) && IsTerminal(s)
    ensures ValuesAfter(n, gamma, Optimal, V, k)[s] == V[s]
    ensures RowsAfter(n, gamma, V, Q, k)[s] == Q[s]
    ensures GreedyPolicy(n, RowsAfter(n, gamma, V, Q, k), P)[s] == P[s]
  {
    SweepsKeepTerminalValue(n, gamma, Optimal, V, k, s);
    SweepsKeepTerminalRow(n, gamma, V, Q, k, s);
  }

  class ValueIteration {
    const lake: FrozenLake
    const gamma: real
    const gridSize: nat
    /** State values. */
    var V: map<Pos, real>
    /** Action values, one row per cell. */
    var Q: map<Pos, Row>
    /** Policy rows, one probability per action; all zero until computed. */
    var policy: map<Pos, Row>

    ghost predicate Valid()
      reads this, lake, lake.grid
    {
      lake.Valid() && gridSize == lake.gridSize &&
      CoversValues(gridSize, V) && CoversRows(gridSize, Q) && CoversRows(gridSize, policy)
    }

    constructor (frozenLake: FrozenLake, gamma: real)
      requires frozenLake.Valid()
      ensures Valid() && lake == frozenLake && this.gamma == gamma && gridSize == frozenLake.gridSize
      ensures V == ConstantValues(gridSize, 0.0) && Q == ConstantRows(gridSize, ZERO_ROW)
      ensures policy == ConstantRows(gridSize, ZERO_ROW)
    {
      lake := frozenLake;
      this.gamma := gamma;
      gridSize := frozenLake.gridSize;
      V := ConstantValues(frozenLake.gridSize, 0.0);
      Q := ConstantRows(frozenLake.gridSize, ZERO_ROW);
      policy := ConstantRows(frozenLake.gridSize, ZERO_ROW);
    }

    /** Puts the lake on s, steps with the k-th action, puts the lake back
        and returns reward + gamma * V[next]. */
    method ProbeAction(s: Pos, k: ActionIndex) returns (actionValue: real)
      requires Valid() && InGrid(gridSize, s)
      modifies lake
      ensures Valid() && lake.state == old(lake.state)
      ensures actionValue == Lookahead(gridSize, gamma, V, s, ACTIONS[k])
    {
      var next, reward, done := Probe(lake, s, lake.actions[k]);
      actionValue := reward + gamma * V[next];
    }

    /** Probes the actions from s in order, writing each look-ahead into
        the Q row of s and keeping a running maximum of them. */
    method BackupActions(s: Pos) returns (best: real)
      requires Valid() && InGrid(gridSize, s)
      modifies this, lake
      ensures Valid() && lake.state == old(lake.state) && V == old(V) && policy == old(policy)
      ensures Q == old(Q)[s := LookaheadRow(gridSize, gamma, V, s)]
      ensures best == RowMax(LookaheadRow(gridSize, gamma, V, s))
    {
      ghost var target := LookaheadRow(gridSize, gamma, V, s);
      ghost var Q0 := Q;
      best := 0.0;
      var k := 0;
      while k < 4
        invariant 0 <= k <= 4 && Valid() && lake.state == old(lake.state)
        invariant V == old(V) && policy == old(policy)
        invariant s in Q && Q == Q0[s := Q[s]]
        invariant forall m: ActionIndex :: Q[s].Get(m) == if m < k then Lookahead(gridSize, gamma, V, s, ACTIONS[m]) else Q0[s].Get(m)
        invariant k > 0 ==> best == PrefixMax(target, k)
      {
        var actionValue := ProbeAction(s, k);
        Q := Q[s := Q[s].Set(k, actionValue)];
        best := if k == 0 then actionValue else RealMax(best, actionValue);
        k := k + 1;
      }
      LookaheadRowFromEntries(gridSize, gamma, V, s, Q[s]);
      PrefixMaxWhole(target);
    }

    /** The body of a sweep for one cell: goal and trap cells are skipped;
        any other cell is backed up and delta raised to the size of its
        change if that is larger. */
    method ProcessCell(s: Pos, delta: real) returns (newDelta: real)
      requires Valid() && InGrid(gridSize, s)
      modifies this, lake
      ensures Valid() && lake.state == old(lake.state) && policy == old(policy)
      ensures V == StepValues(gridSize, gamma, Optimal, old(V), s)
      ensures Q == StepRows(gridSize, gamma, old(V), old(Q), s)
      ensures newDelta == StepDelta(gridSize, gamma, Optimal, old(V), delta, s)
    {
      IsTrapIsMembership(s);
      newDelta := delta;
      if !(s == lake.goal || s in lake.traps) {
        var v := V[s];
        var best := BackupActions(s);
        V := V[s := best];
        newDelta := RealMax(delta, Abs(v - V[s]));
      }
    }

    /** The tables hold what an in-place sweep that started from V0 and Q0
        has made of them by the time it reaches (i, j), and d is its
        running delta. */
    ghost predicate SweptTo(V0: map<Pos, real>, Q0: map<Pos, Row>, i: nat, j: nat, d: real)
      reads this
    {
      CoversValues(gridSize, V0) && CoversRows(gridSize, Q0) && Stage(gridSize, i, j) &&
      V == SweepValues(gridSize, gamma, Optimal, V0, i, j) &&
      Q == SweepRows(gridSize, gamma, V0, Q0, i, j) &&
      d == SweepDelta(gridSize, gamma, Optimal, V0, i, j)
    }

    /** The inner loop of a sweep: the cells of row i, left to right. */
    method SweepRow(i: nat, ghost V0: map<Pos, real>, ghost Q0: map<Pos, Row>, delta: real) returns (newDelta: real)
      requires Valid() && i < gridSize && SweptTo(V0, Q0, i, 0, delta)
      modifies this, lake
      ensures Valid() && lake.state == old(lake.state) && policy == old(policy)
      ensures SweptTo(V0, Q0, i + 1, 0, newDelta)
    {
      newDelta := delta;
      var j := 0;
      while j < gridSize
        invariant 0 <= j <= gridSize && Valid()
        invariant lake.state == old(lake.state) && policy == old(policy)
        invariant SweptTo(V0, Q0, i, j, newDelta)
      {
        newDelta := SweepCell(i, j, V0, Q0, newDelta);
        j := j + 1;
      }
    }

    /** Cell (i, j) of a sweep that started from V0 and Q0. */
    method SweepCell(i: nat, j: nat, ghost V0: map<Pos, real>, ghost Q0: map<Pos, Row>, delta: real) returns (newDelta: real)
      requires Valid() && i < gridSize && j < gridSize && SweptTo(V0, Q0, i, j, delta)
      modifies this, lake
      ensures Valid() && lake.state == old(lake.state) && policy == old(policy)
      ensures SweptTo(V0, Q0, i, j + 1, newDelta)
    {
      newDelta := ProcessCell(Pos(i, j), delta);
    }

    /** One in-place, row-major sweep over the grid; returns the largest
        change it made. */
    method SweepGrid() returns (delta: real)
      requires Valid()
      modifies this, lake
      ensures Valid() && lake.state == old(lake.state) && policy == old(policy)
      ensures V == SweepValues(gridSize, gamma, Optimal, old(V), gridSize, 0)
      ensures Q == SweepRows(gridSize, gamma, old(V), old(Q), gridSize, 0)
      ensures delta == SweepDelta(gridSize, gamma, Optimal, old(V), gridSize, 0)
    {
      delta := 0.0;
      var i := 0;
      while i < gridSize
        invariant 0 <= i <= gridSize && Valid()
        invariant lake.state == old(lake.state) && policy == old(policy)
        invariant SweptTo(old(V), old(Q), i, 0, delta)
      {
        delta := SweepRow(i, old(V), old(Q), delta);
        i := i + 1;
      }
    }

    /** Sweeps until the delta of a sweep is below seuil or maxIterations
        sweeps are made, then extracts the greedy policy; returns V, the
        policy and Q. */
    method Run(seuil: real, maxIterations: int) returns (values: map<Pos, real>, pol: map<Pos, Row>, q: map<Pos, Row>)
      requires Valid()
      modifies this, lake
      ensures Valid() && lake.state == old(lake.state)
      ensures var k := SweepCount(gridSize, gamma, Optimal, old(V), StopRule(seuil, true, maxIterations), 0);
        V == ValuesAfter(gridSize, gamma, Optimal, old(V), k) && Q == RowsAfter(gridSize, gamma, old(V), old(Q), k)
      ensures policy == GreedyPolicy(gridSize, Q, old(policy))
      ensures values == V && pol == policy && q == Q
    {
      var iterations := 0;
      while true
        invariant Valid() && lake.state == old(lake.state) && policy == old(policy)
        invariant V == ValuesAfter(gridSize, gamma, Optimal, old(V), iterations)
        invariant Q == RowsAfter(gridSize, gamma, old(V), old(Q), iterations)
        invariant SweepCount(gridSize, gamma, Optimal, old(V), StopRule(seuil, true, maxIterations), iterations)
               == SweepCount(gridSize, gamma, Optimal, old(V), StopRule(seuil, true, maxIterations), 0)
        decreases if maxIterations > iterations then maxIterations - iterations else 0
      {
        var delta := NextSweep(old(V), old(Q), iterations);
        iterations := iterations + 1;
        if delta < seuil || iterations >= maxIterations {
          break;
        }
      }
      CalculateOptimalPolicy();
      values, pol, q := V, policy, Q;
    }

    /** Sweep k + 1 of a run that started from V0 and Q0. */
    method NextSweep(ghost V0: map<Pos, real>, ghost Q0: map<Pos, Row>, ghost k: nat) returns (delta: real)
      requires Valid() && CoversValues(gridSize, V0) && CoversRows(gridSize, Q0)
      requires V == ValuesAfter(gridSize, gamma, Optimal, V0, k) && Q == RowsAfter(gridSize, gamma, V0, Q0, k)
      modifies this, lake
      ensures Valid() && lake.state == old(lake.state) && policy == old(policy)
      ensures V == ValuesAfter(gridSize, gamma, Optimal, V0, k + 1) && Q == RowsAfter(gridSize, gamma, V0, Q0, k + 1)
      ensures delta == DeltaOf(gridSize, gamma, Optimal, V0, k + 1)
    {
      delta := SweepGrid();
    }

    /** Writes the one-hot row of action best into the policy of s, entry
        by entry. */
    method WriteOneHot(s: Pos, best: ActionIndex)
      requires Valid() && InGrid(gridSize, s)
      modifies this
      ensures Valid() && V == old(V) && Q == old(Q)
      ensures policy == old(policy)[s := OneHot(best)]
    {
      ghost var P1 := policy;
      var k := 0;
      while k < 4
        invariant 0 <= k <= 4 && Valid() && V == old(V) && Q == old(Q)
        invariant s in policy && policy == P1[s := policy[s]]
        invariant forall m: ActionIndex :: policy[s].Get(m) == if m < k then OneHot(best).Get(m) else P1[s].Get(m)
      {
        policy := policy[s := policy[s].Set(k, if k == best then 1.0 else 0.0)];
        k := k + 1;
      }
      RowsEqual(policy[s], OneHot(best));
    }

    /** Writes, for every swept cell, the one-hot row of its first best
        action. */
    method CalculateOptimalPolicy()
      requires Valid()
      modifies this
      ensures Valid() && V == old(V) && Q == old(Q)
      ensures policy == GreedyPolicy(gridSize, Q, old(policy))
    {
      ghost var P0 := policy;
      var i := 0;
      while i < gridSize
        invariant 0 <= i <= gridSize && Valid() && V == old(V) && Q == old(Q)
        invariant CoversRows(gridSize, P0) && policy == GreedyUpTo(gridSize, Q, P0, Pos(i, 0))
      {
        PolicyRow(i, P0);
        GreedyUpToNextRow(gridSize, Q, P0, i);
        i := i + 1;
      }
      GreedyUpToAll(gridSize, Q, P0);
    }

    /** The inner loop of the policy extraction: the cells of row i. */
    method PolicyRow(i: nat, ghost P0: map<Pos, Row>)
      requires Valid() && i < gridSize && CoversRows(gridSize, P0)
      requires policy == GreedyUpTo(gridSize, Q, P0, Pos(i, 0))
      modifies this
      ensures Valid() && V == old(V) && Q == old(Q)
      ensures policy == GreedyUpTo(gridSize, Q, P0, Pos(i, gridSize))
    {
      var j := 0;
      while j < gridSize
        invariant 0 <= j <= gridSize && Valid() && V == old(V) && Q == old(Q)
        invariant policy == GreedyUpTo(gridSize, Q, P0, Pos(i, j))
      {
        PolicyCell(Pos(i, j));
        GreedyUpToStep(gridSize, Q, P0, i, j);
        j := j + 1;
      }
    }

    /** Goal and trap cells are skipped; any other cell gets the one-hot
        row of its first best action. */
    method PolicyCell(s: Pos)
      requires Valid() && InGrid(gridSize, s)
      modifies this
      ensures Valid() && V == old(V) && Q == old(Q)
      ensures policy == if Swept(gridSize, s) then old(policy)[s := OneHot(FirstArgMax(Q[s]))] else old(policy)
    {
      IsTrapIsMembership(s);
      if !(s == lake.goal || s in lake.traps) {
        var best := FirstArgMax(Q[s]);
        WriteOneHot(s, best);
      }
    }
  }
}
