/** Tabular Q-learning on the frozen lake: epsilon-greedy choices against a
    Q table, one temporal-difference update per step, episodes from the
    start cell until a step ends on the goal or a trap, and a greedy policy
    read off the table.  The random draws come from two oracles indexed by
    the number of steps taken so far. */
module QLearn {
  import opened Lake
  import opened Rows
  import opened Bellman

  /** The epsilon-greedy choice from a Q row: the oracle's action when the
      draw is below epsilon, else the first action of largest value. */
  function EpsilonGreedy(row: Row, epsilon: real, draw: real, pick: ActionIndex): (a: ActionIndex)
    ensures draw < epsilon ==> a == pick
    ensures draw >= epsilon ==> IsFirstMax(row, a)
  {
    FirstArgMaxIsFirstMax(row);
    if draw < epsilon then pick else FirstArgMax(row)
  }

  /** With epsilon at most 0, a draw from [0, 1) never explores. */
  lemma NoExplorationIsGreedy(row: Row, epsilon: real, draw: real, pick: ActionIndex)
    requires epsilon <= 0.0 && 0.0 <= draw
    ensures EpsilonGreedy(row, epsilon, draw, pick) == FirstArgMax(row)
  {
  }

  /** The temporal-difference update of one value toward the target
      reward + gamma * maxNext, with learning rate alpha. */
  function TdValue(current: real, alpha: real, gamma: real, reward: real, maxNext: real): real {
    current + alpha * (reward + gamma * maxNext - current)
  }

  /** For a learning rate in [0, 1] the new value lies between the old value
      and the target; it is the target when alpha is 1, and it equals the
      old value exactly when alpha is 0 or the old value is the target. */
  lemma TdValueBetween(current: real, alpha: real, gamma: real, reward: real, maxNext: real)
    requires 0.0 <= alpha <= 1.0
    ensures var target := reward + gamma * maxNext;
      var r := TdValue(current, alpha, gamma, reward, maxNext);
      (current <= target ==> current <= r <= target) &&
      (target <= current ==> target <= r <= current) &&
      (alpha == 1.0 ==> r == target) &&
      (r == current <==> alpha == 0.0 || current == target)
  {
    var target := reward + gamma * maxNext;
    var d := target - current;
    var r := TdValue(current, alpha, gamma, reward, maxNext);
    assert r - current == alpha * d;
    assert target - r == (1.0 - alpha) * d;
    if d >= 0.0 {
      assert alpha * d >= 0.0 && (1.0 - alpha) * d >= 0.0;
    } else {
      assert alpha * d <= 0.0 && (1.0 - alpha) * d <= 0.0;
    }
    if alpha * d == 0.0 {
      assert alpha == 0.0 || d == 0.0;
    }
  }

  /** Q with entry (s, k) set to value. */
  function TdUpdate(Q: map<Pos, Row>, s: Pos, k: ActionIndex, value: real): (r: map<Pos, Row>)
    requires s in Q
    ensures r.Keys == Q.Keys
  {
    Q[s := Q[s].Set(k, value)]
  }

  /** An update changes exactly one entry: no other cell and no other action
      of s changes. */
  lemma TdUpdateChangesOneEntry(Q: map<Pos, Row>, s: Pos, k: ActionIndex, value: real)
    requires s in Q
    ensures var r := TdUpdate(Q, s, k, value);
      r[s].Get(k) == value &&
      forall p, m: ActionIndex :: p in Q && (p != s || m != k) ==> r[p].Get(m) == Q[p].Get(m)
  {
  }

  /** The learner's parameters, its random oracles and the step budget of an
      episode. */
  datatype Learner = Learner(n: nat, alpha: real, gamma: real, epsilon: real,
                             draws: nat -> real, picks: nat -> ActionIndex, fuel: nat)

  /** Q, the agent's cell and the number of steps taken so far. */
  datatype Outcome = Outcome(Q: map<Pos, Row>, state: Pos, t: nat)

  /** Step t of training from cell s: choose an action, move, and update
      the entry of s and that action; returns Q, the next cell and whether
      it ends the episode. */
  function TrainingStep(L: Learner, Q: map<Pos, Row>, s: Pos, t: nat): (r: (map<Pos, Row>, Pos, bool))
    requires CoversRows(L.n, Q) && InGrid(L.n, s)
    ensures CoversRows(L.n, r.0) && InGrid(L.n, r.1)
  {
    var a := EpsilonGreedy(Q[s], L.epsilon, L.draws(t), L.picks(t));
    var next := Move(L.n, s, ACTIONS[a]);
    var value := TdValue(Q[s].Get(a), L.alpha, L.gamma, CellReward(next), RowMax(Q[next]));
    (TdUpdate(Q, s, a, value), next, IsTerminal(next))
  }

  /** The rest of an episode from cell s at step t, with at most fuel
      steps left. */
  function EpisodeFrom(L: Learner, Q: map<Pos, Row>, s: Pos, t: nat, fuel: nat): (r: Outcome)
    requires CoversRows(L.n, Q) && InGrid(L.n, s)
    ensures CoversRows(L.n, r.Q) && InGrid(L.n, r.state)
    decreases fuel
  {
    if fuel == 0 then Outcome(Q, s, t)
    else
      var step := TrainingStep(L, Q, s, t);
      if step.2 then Outcome(step.0, step.1, t + 1)
      else EpisodeFrom(L, step.0, step.1, t + 1, fuel - 1)
  }

  /** Training from episode e on: each episode starts on the start cell. */
  function TrainFrom(L: Learner, Q: map<Pos, Row>, s: Pos, t: nat, episodes: int, e: nat): (r: Outcome)
    requires L.n >= MIN_SIZE && CoversRows(L.n, Q) && InGrid(L.n, s)
    ensures CoversRows(L.n, r.Q) && InGrid(L.n, r.state)
    decreases if episodes > e then episodes - e else 0
  {
    if e >= episodes then Outcome(Q, s, t)
    else
      var o := EpisodeFrom(L, Q, START, t, L.fuel);
      TrainFrom(L, o.Q, o.state, o.t, episodes, e + 1)
  }

  /** An episode takes between one and fuel steps (none without fuel), and
      it ends before its fuel runs out only on a step that reaches the goal
      or a trap. */
  lemma {:induction false} EpisodeEndsOnDone(L: Learner, Q: map<Pos, Row>, s: Pos, t: nat, fuel: nat)
    requires CoversRows(L.n, Q) && InGrid(L.n, s)
    ensures var o := EpisodeFrom(L, Q, s, t, fuel);
      t <= o.t <= t + fuel && (fuel > 0 ==> t < o.t) &&
      (o.t < t + fuel ==> IsTerminal(o.state))
    decreases fuel
  {
    if fuel > 0 {
      var step := TrainingStep(L, Q, s, t);
      if !step.2 {
        EpisodeEndsOnDone(L, step.0, step.1, t + 1, fuel - 1);
      }
    }
  }

  /** An episode that starts on a cell that is neither goal nor trap never
      updates the Q row of the goal or of a trap: every update is for the
      cell a step leaves, and the episode stops on reaching a terminal
      cell. */
  lemma {:induction false} EpisodeKeepsTerminalRows(L: Learner, Q: map<Pos, Row>, s: Pos, t: nat, fuel: nat, g: Pos)
    requires CoversRows(L.n, Q) && InGrid(L.n, s) && !IsTerminal(s)
    requires InGrid(L.n, g) && IsTerminal(g)
    ensures EpisodeFrom(L, Q, s, t, fuel).Q[g] == Q[g]
    decreases fuel
  {
    if fuel > 0 {
      var step := TrainingStep(L, Q, s, t);
      assert step.0[g] == Q[g];
      if !step.2 {
        EpisodeKeepsTerminalRows(L, step.0, step.1, t + 1, fuel - 1, g);
      }
    }
  }

  /** Training never updates the Q row of the goal or of a trap. */
  lemma {:induction false} TrainingKeepsTerminalRows(L: Learner, Q: map<Pos, Row>, s: Pos, t: nat, episodes: int, e: nat, g: Pos)
    requires L.n >= MIN_SIZE && CoversRows(L.n, Q) && InGrid(L.n, s)
    requires InGrid(L.n, g) && IsTerminal(g)
    ensures TrainFrom(L, Q, s, t, episodes, e).Q[g] == Q[g]
    decreases if episodes > e then episodes - e else 0
  {
    if e < episodes {
      StartIsNotTerminal();
      var o := EpisodeFrom(L, Q, START, t, L.fuel);
      EpisodeKeepsTerminalRows(L, Q, START, t, L.fuel, g);
      TrainingKeepsTerminalRows(L, o.Q, o.state, o.t, episodes, e + 1, g);
    }
  }

  /** The greedy action of every cell of the grid, terminal cells included. */
  function GreedyActions(n: nat, Q: map<Pos, Row>): (r: map<Pos, Action>)
    requires CoversRows(n, Q)
    ensures r.Keys == Cells(n)
    ensures forall s :: s in r ==> r[s].Listed() && IsFirstMax(Q[s], r[s].Index())
  {
    map s | s in Cells(n) :: ACTIONS[FirstArgMax(Q[s])]
  }

  /** The greedy actions of the cells before lim. */
  function GreedyActionsUpTo(n: nat, Q: map<Pos, Row>, lim: Pos): (r: map<Pos, Action>)
    requires CoversRows(n, Q)
  {
    map s | s in Cells(n) && Before(s, lim) :: ACTIONS[FirstArgMax(Q[s])]
  }

  class QLearning {
    const lake: FrozenLake
    const alpha: real
    const gamma: real
    const epsilon: real
    const gridSize: nat
    /** Action values, one row per cell. */
    var Q: map<Pos, Row>

    ghost predicate Valid()
      reads this, lake, lake.grid
    {
      lake.Valid() && gridSize == lake.gridSize && CoversRows(gridSize, Q)
    }

    constructor (frozenLake: FrozenLake, alpha: real, gamma: real, epsilon: real)
      requires frozenLake.Valid()
      ensures Valid() && lake == frozenLake && gridSize == frozenLake.gridSize
      ensures this.alpha == alpha && this.gamma == gamma && this.epsilon == epsilon
      ensures Q == ConstantRows(gridSize, ZERO_ROW)
    {
      lake := frozenLake;
      this.alpha := alpha;
      this.gamma := gamma;
      this.epsilon := epsilon;
      gridSize := frozenLake.gridSize;
      Q := ConstantRows(frozenLake.gridSize, ZERO_ROW);
    }

    /** The parameters of this learner with the given oracles and budget. */
    function LearnerOf(draws: nat -> real, picks: nat -> ActionIndex, fuel: nat): (L: Learner)
      reads this
      ensures L.n == gridSize && L.alpha == alpha && L.gamma == gamma && L.epsilon == epsilon
      ensures L.draws == draws && L.picks == picks && L.fuel == fuel
    {
      Learner(gridSize, alpha, gamma, epsilon, draws, picks, fuel)
    }

    /** Explores with the action `pick` when the draw is below epsilon,
        otherwise exploits the first action of largest Q value. */
    method ChooseAction(state: Pos, draw: real, pick: ActionIndex) returns (action: Action)
      requires Valid() && InGrid(gridSize, state)
      ensures action.Listed() && action == ACTIONS[EpsilonGreedy(Q[state], epsilon, draw, pick)]
      ensures draw >= epsilon ==> IsFirstMax(Q[state], action.Index())
    {
      if draw < epsilon {
        action := lake.actions[pick];
      } else {
        action := lake.actions[FirstArgMax(Q[state])];
      }
    }

    /** Moves the entry of state and action toward
        reward + gamma * (largest value of the next state's row). */
    method UpdateQValue(state: Pos, action: Action, reward: real, nextState: Pos)
      requires Valid() && InGrid(gridSize, state) && InGrid(gridSize, nextState) && action.Listed()
      modifies this
      ensures Valid()
      ensures Q == TdUpdate(old(Q), state, action.Index(),
                            TdValue(old(Q)[state].Get(action.Index()), alpha, gamma, reward, RowMax(old(Q)[nextState])))
    {
      var k := action.Index();
      var currentQ := Q[state].Get(k);
      var maxNextQ := RowMax(Q[nextState]);
      var newQ := currentQ + alpha * (reward + gamma * maxNextQ - currentQ);
      assert newQ == TdValue(currentQ, alpha, gamma, reward, maxNextQ);
      Q := Q[state := Q[state].Set(k, newQ)];
    }

    /** Step t of training from the agent's cell: choose, step the lake,
        update. */
    method TakeStep(state: Pos, t: nat, draws: nat -> real, picks: nat -> ActionIndex, ghost fuel: nat)
      returns (next: Pos, done: bool)
      requires Valid() && lake.state == state
      modifies this, lake
      ensures Valid() && lake.state == next
      ensures (Q, next, done) == TrainingStep(LearnerOf(draws, picks, fuel), old(Q), state, t)
    {
      var action := ChooseAction(state, draws(t), picks(t));
      var reward;
      next, reward, done := lake.Step(action);
      IsTrapIsMembership(next);
      UpdateQValue(state, action, reward, next);
    }

    /** One episode from a reset lake, stepping until a step ends on the
        goal or a trap or fuel steps are taken; returns the step count. */
    method RunEpisode(t0: nat, draws: nat -> real, picks: nat -> ActionIndex, fuel: nat) returns (t: nat)
      requires Valid()
      modifies this, lake
      ensures Valid()
      ensures Outcome(Q, lake.state, t) == EpisodeFrom(LearnerOf(draws, picks, fuel), old(Q), START, t0, fuel)
    {
      ghost var L := LearnerOf(draws, picks, fuel);
      var state := lake.Reset();
      var done := false;
      var steps := 0;
      t := t0;
      while !done && steps < fuel
        invariant Valid() && lake.state == state && steps <= fuel
        invariant !done ==> EpisodeFrom(L, Q, state, t, fuel - steps) == EpisodeFrom(L, old(Q), START, t0, fuel)
        invariant done ==> Outcome(Q, state, t) == EpisodeFrom(L, old(Q), START, t0, fuel)
        decreases fuel - steps
      {
        var next;
        next, done := TakeStep(state, t, draws, picks, fuel);
        state := next;
        t := t + 1;
        steps := steps + 1;
      }
    }

    /** numEpisodes episodes, each from the start cell; the step count runs
        on across episodes and indexes the oracles. */
    method Train(numEpisodes: int, draws: nat -> real, picks: nat -> ActionIndex, fuel: nat)
      requires Valid()
      modifies this, lake
      ensures Valid()
      ensures var o := TrainFrom(LearnerOf(draws, picks, fuel), old(Q), old(lake.state), 0, numEpisodes, 0);
        Q == o.Q && lake.state == o.state
    {
      ghost var L := LearnerOf(draws, picks, fuel);
      var t := 0;
      var episode := 0;
      while episode < numEpisodes
        invariant Valid()
        invariant TrainFrom(L, Q, lake.state, t, numEpisodes, episode) == TrainFrom(L, old(Q), old(lake.state), 0, numEpisodes, 0)
        decreases numEpisodes - episode
      {
        t := RunEpisode(t, draws, picks, fuel);
        episode := episode + 1;
      }
    }

    /** The greedy action of every cell, row by row. */
    method GetOptimalPolicy() returns (policy: map<Pos, Action>)
      requires Valid()
      ensures policy == GreedyActions(gridSize, Q)
    {
      policy := map[];
      var i := 0;
      while i < gridSize
        invariant 0 <= i <= gridSize
        invariant policy == GreedyActionsUpTo(gridSize, Q, Pos(i, 0))
      {
        policy := PolicyRow(i, policy);
        i := i + 1;
      }
    }

    /** The cells of row i, left to right. */
    method PolicyRow(i: nat, policy: map<Pos, Action>) returns (newPolicy: map<Pos, Action>)
      requires Valid() && i < gridSize && policy == GreedyActionsUpTo(gridSize, Q, Pos(i, 0))
      ensures newPolicy == GreedyActionsUpTo(gridSize, Q, Pos(i + 1, 0))
    {
      newPolicy := policy;
      var j := 0;
      while j < gridSize
        invariant 0 <= j <= gridSize
        invariant newPolicy == GreedyActionsUpTo(gridSize, Q, Pos(i, j))
      {
        var state := Pos(i, j);
        assert InGrid(gridSize, state);
        newPolicy := newPolicy[state := lake.actions[FirstArgMax(Q[state])]];
        j := j + 1;
      }
    }
  }
}
