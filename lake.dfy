/** The FrozenLake grid world: a square grid with one goal cell, a fixed list of
    trap cells and a start cell.  The agent's position is the one piece of
    mutable state; moves are deterministic and clamped at the walls. */
module Lake {

  /** A cell, as a (row, column) pair. */
  datatype Pos = Pos(row: int, col: int)

  /** The labels Step recognises, in action order. */
  const LABELS: seq<string> := ["up", "down", "left", "right"]

  /** A label Step does not recognise. */
  type OtherLabel = s: string | s !in LABELS witness ""

  /** An action label.  The four listed actions are the ones the algorithms
      use; any other label is accepted by Step and moves nowhere. */
  datatype Action = Up | Down | Left | Right | Unlisted(name: OtherLabel)
  {
    predicate Listed() { !Unlisted? }

    /** Position of a listed action in ACTIONS (the key order of every Q row). */
    function Index(): (k: nat)
      requires Listed()
      ensures k < |ACTIONS| && ACTIONS[k] == this
    {
      match this
      case Up => 0
      case Down => 1
      case Left => 2
      case Right => 3
    }
  }

  /** The action a label names. */
  function Parse(word: string): (a: Action)
    ensures a.Listed() <==> word in LABELS
    ensures a.Listed() ==> LABELS[a.Index()] == word
    ensures a.Unlisted? ==> a.name == word
  {
    if word == "up" then Up
    else if word == "down" then Down
    else if word == "left" then Left
    else if word == "right" then Right
    else Unlisted(word)
  }

  /** The label of an action. */
  function Label(a: Action): (word: string)
    ensures word in LABELS <==> a.Listed()
  {
    match a
    case Up => "up"
    case Down => "down"
    case Left => "left"
    case Right => "right"
    case Unlisted(name) => name
  }

  /** Labels and actions are in one-to-one correspondence. */
  lemma ParseLabel(a: Action, word: string)
    ensures Parse(Label(a)) == a
    ensures Label(Parse(word)) == word
  {
  }

  /** Index of an action in a Q row or a policy row. */
  type ActionIndex = k: nat | k < 4

  const ACTIONS: seq<Action> := [Up, Down, Left, Right]

  const GOAL: Pos := Pos(0, 0)
  const TRAPS: seq<Pos> := [Pos(2, 2), Pos(0, 6), Pos(4, 0), Pos(4, 2), Pos(6, 3), Pos(5, 5), Pos(4, 5)]
  const START: Pos := Pos(6, 6)

  /** The reward schedule: frozen, hole and goal. */
  const FROZEN_REWARD: real := 0.0
  const HOLE_REWARD: real := -10.0
  const GOAL_REWARD: real := 10.0

  /** The smallest grid size for which the goal, every trap and the start lie inside. */
  const MIN_SIZE: nat := 7

  predicate InGrid(n: int, p: Pos) {
    0 <= p.row < n && 0 <= p.col < n
  }

  /** The cells of an n x n grid. */
  function Cells(n: nat): (r: set<Pos>)
    ensures forall p :: p in r <==> InGrid(n, p)
  {
    set i, j | 0 <= i < n && 0 <= j < n :: Pos(i, j)
  }

  /** Membership in TRAPS, written out cell by cell. */
  predicate IsTrap(p: Pos) {
    p == Pos(2, 2) || p == Pos(0, 6) || p == Pos(4, 0) || p == Pos(4, 2) ||
    p == Pos(6, 3) || p == Pos(5, 5) || p == Pos(4, 5)
  }

  /** IsTrap is membership in the trap list. */
  lemma IsTrapIsMembership(p: Pos)
    ensures IsTrap(p) <==> p in TRAPS
  {
  }

  predicate IsTerminal(p: Pos) {
    p == GOAL || IsTrap(p)
  }

  /** Row-major order on cells: p is swept before q. */
  predicate Before(p: Pos, q: Pos) {
    p.row < q.row || (p.row == q.row && p.col < q.col)
  }

  /** The reward stored in a grid cell after construction: the goal is written
      first and every trap after it, so a trap always reads as a hole. */
  function CellReward(p: Pos): real {
    if IsTrap(p) then HOLE_REWARD
    else if p == GOAL then GOAL_REWARD
    else FROZEN_REWARD
  }

  /** A cell reads as a hole exactly when it is a trap, as the goal reward
      exactly when it is the goal, and as frozen exactly when it is neither. */
  lemma CellRewardSchedule(p: Pos)
    ensures CellReward(p) == HOLE_REWARD <==> p in TRAPS
    ensures CellReward(p) == GOAL_REWARD <==> p == GOAL
    ensures CellReward(p) == FROZEN_REWARD <==> !IsTerminal(p)
  {
    IsTrapIsMembership(p);
  }

  /** The cell one step away in the action's direction, ignoring walls. */
  function Shift(p: Pos, a: Action): Pos {
    match a
    case Up => Pos(p.row - 1, p.col)
    case Down => Pos(p.row + 1, p.col)
    case Left => Pos(p.row, p.col - 1)
    case Right => Pos(p.row, p.col + 1)
    case Unlisted(_) => p
  }

  /** The deterministic, wall-clamped transition of Step. */
  function Move(n: int, p: Pos, a: Action): (r: Pos)
    ensures InGrid(n, p) ==> InGrid(n, r)
  {
    if a == Up && p.row > 0 then Pos(p.row - 1, p.col)
    else if a == Down && p.row < n - 1 then Pos(p.row + 1, p.col)
    else if a == Left && p.col > 0 then Pos(p.row, p.col - 1)
    else if a == Right && p.col < n - 1 then Pos(p.row, p.col + 1)
    else p
  }

  /** Inside the grid, a move goes one cell in the action's direction when
      that cell is inside the grid and stays put otherwise; an unlisted
      label never moves, and a listed one moves exactly when the cell it
      points at is inside the grid. */
  lemma MoveClamps(n: int, p: Pos, a: Action)
    requires InGrid(n, p)
    ensures Move(n, p, a) == if InGrid(n, Shift(p, a)) then Shift(p, a) else p
    ensures a.Unlisted? ==> Move(n, p, a) == p
    ensures Move(n, p, a) != p <==> a.Listed() && InGrid(n, Shift(p, a))
  {
  }

  /** Reward grid as it stands after the goal and the first k traps are written. */
  function PartialReward(p: Pos, k: nat): real
    requires k <= |TRAPS|
  {
    if p in TRAPS[..k] then HOLE_REWARD
    else if p == GOAL then GOAL_REWARD
    else FROZEN_REWARD
  }

  class FrozenLake {
    const gridSize: nat
    const goal: Pos
    const traps: seq<Pos>
    const start: Pos
    const actions: seq<Action>
    /** Reward per cell, filled once at construction. */
    const grid: array2<real>
    /** The agent's current position. */
    var state: Pos

    ghost predicate Valid()
      reads this, grid
    {
      gridSize >= MIN_SIZE &&
      goal == GOAL && traps == TRAPS && start == START && actions == ACTIONS &&
      grid.Length0 == gridSize && grid.Length1 == gridSize &&
      (forall i, j {:trigger grid[i, j]} :: 0 <= i < gridSize && 0 <= j < gridSize ==> grid[i, j] == CellReward(Pos(i, j))) &&
      InGrid(gridSize, state)
    }

    /** Builds the reward grid: zeros, then the goal reward, then a hole
        reward on every trap in list order. */
    static method CreateGrid(n: nat) returns (g: array2<real>)
      requires n >= MIN_SIZE
      ensures fresh(g) && g.Length0 == n && g.Length1 == n
      ensures forall i, j {:trigger g[i, j]} :: 0 <= i < n && 0 <= j < n ==> g[i, j] == CellReward(Pos(i, j))
    {
      g := new real[n, n]((i, j) => FROZEN_REWARD);
      g[GOAL.row, GOAL.col] := GOAL_REWARD;
      var k := 0;
      while k < |TRAPS|
        invariant 0 <= k <= |TRAPS|
        invariant forall i, j {:trigger g[i, j]} :: 0 <= i < n && 0 <= j < n ==> g[i, j] == PartialReward(Pos(i, j), k)
      {
        var trap := TRAPS[k];
        g[trap.row, trap.col] := HOLE_REWARD;
        assert TRAPS[..k + 1] == TRAPS[..k] + [trap];
        k := k + 1;
      }
      assert TRAPS[..k] == TRAPS;
      forall p: Pos ensures IsTrap(p) <==> p in TRAPS {
        IsTrapIsMembership(p);
      }
    }

    constructor (size: nat)
      requires size >= MIN_SIZE
      ensures Valid() && fresh(grid)
      ensures gridSize == size && state == START
    {
      gridSize := size;
      goal := GOAL;
      traps := TRAPS;
      start := START;
      state := START;
      actions := ACTIONS;
      var g := CreateGrid(size);
      grid := g;
    }

    /** Puts the agent back on the start cell. */
    method Reset() returns (s: Pos)
      requires Valid()
      modifies this
      ensures Valid()
      ensures state == start && s == START
    {
      state := start;
      s := state;
    }

    /** Moves one cell, clamped at the walls; an unlisted label moves nowhere.
        The position is reassigned in every case. */
    method Step(action: Action) returns (next: Pos, reward: real, finish: bool)
      requires Valid()
      modifies this
      ensures Valid()
      ensures state == next && next == Move(gridSize, old(state), action)
      ensures reward == CellReward(next)
      ensures finish <==> next == goal || next in traps
    {
      var x, y := state.row, state.col;
      if action == Up && x > 0 {
        x := x - 1;
      } else if action == Down && x < gridSize - 1 {
        x := x + 1;
      } else if action == Left && y > 0 {
        y := y - 1;
      } else if action == Right && y < gridSize - 1 {
        y := y + 1;
      }
      state := Pos(x, y);
      reward := grid[x, y];
      finish := state == goal || state in traps;
      next := state;
    }
  }

  /** Sets the environment on cell s, steps with action a and puts the
      environment back where it was: the look-ahead every planning
      algorithm performs. */
  method Probe(env: FrozenLake, s: Pos, a: Action) returns (next: Pos, reward: real, done: bool)
    requires env.Valid() && InGrid(env.gridSize, s)
    modifies env
    ensures env.Valid() && env.state == old(env.state)
    ensures next == Move(env.gridSize, s, a)
    ensures reward == CellReward(next)
    ensures done <==> IsTerminal(next)
  {
    var saved := env.state;
    env.state := s;
    next, reward, done := env.Step(a);
    IsTrapIsMembership(next);
    env.state := saved;
  }

  /** The start cell is neither the goal nor a trap. */
  lemma StartIsNotTerminal()
    ensures !IsTerminal(START) && InGrid(MIN_SIZE, START)
  {
  }

  /** A listed action moves exactly one coordinate by exactly one cell in its
      direction unless that leaves the grid, in which case nothing moves. */
  lemma {:induction false} MoveIsUnitStep(n: int, p: Pos, a: Action)
    requires InGrid(n, p) && a.Listed()
    ensures var r := Move(n, p, a);
      (r == p && !InGrid(n, Shift(p, a))) ||
      (r != p && (r.row - p.row) * (r.row - p.row) + (r.col - p.col) * (r.col - p.col) == 1 &&
       r.row - p.row == Shift(p, a).row - p.row && r.col - p.col == Shift(p, a).col - p.col)
  {
    match a
    case Up =>
    case Down =>
    case Left =>
    case Right =>
  }

  /** The six-step script run from a fresh 7x7 lake: it never leaves the
      bottom-right corner area, earns nothing and never ends. */
  method ReplayScript() returns (trace: seq<(Pos, real, bool)>)
    ensures trace == [(Pos(5, 6), 0.0, false), (Pos(5, 6), 0.0, false), (Pos(5, 6), 0.0, false),
                      (Pos(6, 6), 0.0, false), (Pos(6, 6), 0.0, false), (Pos(5, 6), 0.0, false)]
  {
    var lake := new FrozenLake(7);
    var s1, r1, d1 := lake.Step(Up);
    var s2, r2, d2 := lake.Step(Right);
    var s3, r3, d3 := lake.Step(Right);
    var s4, r4, d4 := lake.Step(Down);
    var s5, r5, d5 := lake.Step(Right);
    var s6, r6, d6 := lake.Step(Up);
    trace := [(s1, r1, d1), (s2, r2, d2), (s3, r3, d3), (s4, r4, d4), (s5, r5, d5), (s6, r6, d6)];
  }
}
