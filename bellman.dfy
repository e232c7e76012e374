/** One-step look-ahead and the in-place, row-major sweep shared by Value
    Iteration (optimality backups) and by the evaluation phase of Policy
    Iteration (expected backups under a fixed policy).  The value table V
    and the action-value table Q are kept as two maps, as the algorithms
    keep them. */
module Bellman {
  import opened Lake
  import opened Rows

  /** Every cell of the n x n grid has a value. */
  ghost predicate CoversValues(n: nat, V: map<Pos, real>) {
    forall s {:trigger InGrid(n, s)} :: InGrid(n, s) ==> s in V
  }

  /** Every cell of the n x n grid has a row. */
  ghost predicate CoversRows(n: nat, R: map<Pos, Row>) {
    forall s {:trigger InGrid(n, s)} :: InGrid(n, s) ==> s in R
  }

  /** A table holding v on every cell of the grid. */
  function ConstantValues(n: nat, v: real): (V: map<Pos, real>)
    ensures V.Keys == Cells(n) && CoversValues(n, V)
    ensures forall s :: s in V ==> V[s] == v
  {
    map s | s in Cells(n) :: v
  }

  /** A table holding the same row on every cell of the grid. */
  function ConstantRows(n: nat, row: Row): (R: map<Pos, Row>)
    ensures R.Keys == Cells(n) && CoversRows(n, R)
    ensures forall s :: s in R ==> R[s] == row
  {
    map s | s in Cells(n) :: row
  }

  /** Cells a sweep backs up: inside the grid and neither goal nor trap. */
  predicate Swept(n: nat, s: Pos) {
    InGrid(n, s) && !IsTerminal(s)
  }

  /** reward + gamma * V[next] for the cell that action a reaches from s. */
  function Lookahead(n: nat, gamma: real, V: map<Pos, real>, s: Pos, a: Action): real
    requires InGrid(n, s) && CoversValues(n, V)
  {
    var next := Move(n, s, a);
    CellReward(next) + gamma * V[next]
  }

  /** The look-ahead of every action, in action order. */
  function LookaheadRow(n: nat, gamma: real, V: map<Pos, real>, s: Pos): Row
    requires InGrid(n, s) && CoversValues(n, V)
  {
    Row(Lookahead(n, gamma, V, s, Up), Lookahead(n, gamma, V, s, Down),
        Lookahead(n, gamma, V, s, Left), Lookahead(n, gamma, V, s, Right))
  }

  /** A row holding the look-ahead of each action at its index is the
      look-ahead row. */
  lemma LookaheadRowFromEntries(n: nat, gamma: real, V: map<Pos, real>, s: Pos, row: Row)
    requires InGrid(n, s) && CoversValues(n, V)
    requires forall k: ActionIndex :: row.Get(k) == Lookahead(n, gamma, V, s, ACTIONS[k])
    ensures row == LookaheadRow(n, gamma, V, s)
  {
    assert row.Get(0) == Lookahead(n, gamma, V, s, ACTIONS[0]);
    assert row.Get(1) == Lookahead(n, gamma, V, s, ACTIONS[1]);
    assert row.Get(2) == Lookahead(n, gamma, V, s, ACTIONS[2]);
    assert row.Get(3) == Lookahead(n, gamma, V, s, ACTIONS[3]);
  }

  /** How a swept cell's new value is formed from its look-ahead row. */
  datatype Backup =
    | Optimal                                    // V[s] := max_a Q[s][a], Q[s] := row
    | Expected(policy: map<Pos, Row>)      // V[s] := sum_a policy[s][a] * row[a]

  ghost predicate Fits(n: nat, b: Backup) {
    b.Expected? ==> CoversRows(n, b.policy)
  }

  function Combine(n: nat, b: Backup, s: Pos, row: Row): real
    requires InGrid(n, s) && Fits(n, b)
  {
    match b
    case Optimal => RowMax(row)
    case Expected(p) => Dot(p[s], row)
  }

  /** The new value of cell s when it is backed up against V. */
  function BackupValue(n: nat, gamma: real, b: Backup, V: map<Pos, real>, s: Pos): real
    requires InGrid(n, s) && CoversValues(n, V) && Fits(n, b)
  {
    Combine(n, b, s, LookaheadRow(n, gamma, V, s))
  }

  /** (i, j) is a point of a row-major sweep: rows before i are done, and in
      row i the columns before j. */
  predicate Stage(n: nat, i: nat, j: nat) {
    i <= n && j <= n && (i == n ==> j == 0)
  }

  /** Cell s has been backed up by the time a sweep reaches (i, j). */
  predicate Updated(n: nat, s: Pos, i: nat, j: nat) {
    Swept(n, s) && Before(s, Pos(i, j))
  }

  /** Processing cell s: goal and trap cells are skipped, any other cell
      gets its backup, computed against the current (partly updated) V. */
  function StepValues(n: nat, gamma: real, b: Backup, V: map<Pos, real>, s: Pos): (r: map<Pos, real>)
    requires CoversValues(n, V) && Fits(n, b) && InGrid(n, s)
    ensures CoversValues(n, r)
  {
    if IsTerminal(s) then V else V[s := BackupValue(n, gamma, b, V, s)]
  }

  /** Processing cell s with values V writes its look-ahead row into Q
      (optimality backups only). */
  function StepRows(n: nat, gamma: real, V: map<Pos, real>, Q: map<Pos, Row>, s: Pos): (r: map<Pos, Row>)
    requires CoversValues(n, V) && CoversRows(n, Q) && InGrid(n, s)
    ensures CoversRows(n, r)
  {
    if IsTerminal(s) then Q else Q[s := LookaheadRow(n, gamma, V, s)]
  }

  /** Processing cell s with values V raises the running delta d to the
      size of the change of s, if that is larger. */
  function StepDelta(n: nat, gamma: real, b: Backup, V: map<Pos, real>, d: real, s: Pos): real
    requires CoversValues(n, V) && Fits(n, b) && InGrid(n, s)
  {
    if IsTerminal(s) then d else RealMax(d, Abs(V[s] - BackupValue(n, gamma, b, V, s)))
  }

  /** Values once a sweep that started from V has reached (i, j). */
  function SweepValues(n: nat, gamma: real, b: Backup, V: map<Pos, real>, i: nat, j: nat): (r: map<Pos, real>)
    requires CoversValues(n, V) && Fits(n, b) && Stage(n, i, j)
    ensures CoversValues(n, r)
    decreases i, j
  {
    if j == 0 then
      if i == 0 then V else SweepValues(n, gamma, b, V, i - 1, n)
    else
      StepValues(n, gamma, b, SweepValues(n, gamma, b, V, i, j - 1), Pos(i, j - 1))
  }

  /** Q once an optimality sweep that started from V and Q has reached (i, j). */
  function SweepRows(n: nat, gamma: real, V: map<Pos, real>, Q: map<Pos, Row>, i: nat, j: nat): (r: map<Pos, Row>)
    requires CoversValues(n, V) && CoversRows(n, Q) && Stage(n, i, j)
    ensures CoversRows(n, r)
    decreases i, j
  {
    if j == 0 then
      if i == 0 then Q else SweepRows(n, gamma, V, Q, i - 1, n)
    else
      StepRows(n, gamma, SweepValues(n, gamma, Optimal, V, i, j - 1), SweepRows(n, gamma, V, Q, i, j - 1), Pos(i, j - 1))
  }

  /** The running delta once a sweep that started from V has reached (i, j). */
  function SweepDelta(n: nat, gamma: real, b: Backup, V: map<Pos, real>, i: nat, j: nat): real
    requires CoversValues(n, V) && Fits(n, b) && Stage(n, i, j)
    decreases i, j
  {
    if j == 0 then
      if i == 0 then 0.0 else SweepDelta(n, gamma, b, V, i - 1, n)
    else
      StepDelta(n, gamma, b, SweepValues(n, gamma, b, V, i, j - 1), SweepDelta(n, gamma, b, V, i, j - 1), Pos(i, j - 1))
  }

  /** The values after k full sweeps. */
  function ValuesAfter(n: nat, gamma: real, b: Backup, V: map<Pos, real>, k: nat): (r: map<Pos, real>)
    requires CoversValues(n, V) && Fits(n, b)
    ensures CoversValues(n, r)
  {
    if k == 0 then V else SweepValues(n, gamma, b, ValuesAfter(n, gamma, b, V, k - 1), n, 0)
  }

  /** Q after k full optimality sweeps. */
  function RowsAfter(n: nat, gamma: real, V: map<Pos, real>, Q: map<Pos, Row>, k: nat): (r: map<Pos, Row>)
    requires CoversValues(n, V) && CoversRows(n, Q)
    ensures CoversRows(n, r)
  {
    if k == 0 then Q
    else SweepRows(n, gamma, ValuesAfter(n, gamma, Optimal, V, k - 1), RowsAfter(n, gamma, V, Q, k - 1), n, 0)
  }

  /** The delta of the k-th sweep. */
  function DeltaOf(n: nat, gamma: real, b: Backup, V: map<Pos, real>, k: nat): real
    requires CoversValues(n, V) && Fits(n, b) && k >= 1
  {
    SweepDelta(n, gamma, b, ValuesAfter(n, gamma, b, V, k - 1), n, 0)
  }

  /** When a loop of sweeps stops: after the sweep whose delta passes the
      threshold test (strictly below it, or at most it), or once `limit`
      sweeps have been made. */
  datatype StopRule = StopRule(threshold: real, strict: bool, limit: int)
  {
    predicate Stops(delta: real, k: nat) {
      (if strict then delta < threshold else delta <= threshold) || k >= limit
    }
  }

  /** The number of sweeps a loop from V makes under rule, once `done`
      sweeps have gone by without stopping it. */
  function SweepCount(n: nat, gamma: real, b: Backup, V: map<Pos, real>, rule: StopRule, done: nat): nat
    requires CoversValues(n, V) && Fits(n, b)
    decreases if rule.limit > done then rule.limit - done else 0
  {
    if rule.Stops(DeltaOf(n, gamma, b, V, done + 1), done + 1) then done + 1
    else SweepCount(n, gamma, b, V, rule, done + 1)
  }

  /** Sweep k is the last one: it meets the rule and no earlier sweep does. */
  ghost predicate StopsAt(n: nat, gamma: real, b: Backup, V: map<Pos, real>, rule: StopRule, k: nat)
    requires CoversValues(n, V) && Fits(n, b)
  {
    k >= 1 && rule.Stops(DeltaOf(n, gamma, b, V, k), k) &&
    forall m :: 1 <= m < k ==> !rule.Stops(DeltaOf(n, gamma, b, V, m), m)
  }

  lemma {:induction false} SweepCountFrom(n: nat, gamma: real, b: Backup, V: map<Pos, real>, rule: StopRule, done: nat)
    requires CoversValues(n, V) && Fits(n, b)
    requires forall m :: 1 <= m <= done ==> !rule.Stops(DeltaOf(n, gamma, b, V, m), m)
    ensures StopsAt(n, gamma, b, V, rule, SweepCount(n, gamma, b, V, rule, done))
    decreases if rule.limit > done then rule.limit - done else 0
  {
    if !rule.Stops(DeltaOf(n, gamma, b, V, done + 1), done + 1) {
      SweepCountFrom(n, gamma, b, V, rule, done + 1);
    }
  }

  /** A loop of sweeps stops after the first sweep that meets its rule, and
      makes at least one sweep and, past the first, no more than the limit. */
  lemma SweepCountStops(n: nat, gamma: real, b: Backup, V: map<Pos, real>, rule: StopRule)
    requires CoversValues(n, V) && Fits(n, b)
    ensures var k := SweepCount(n, gamma, b, V, rule, 0);
      StopsAt(n, gamma, b, V, rule, k) && 1 <= k && (k <= rule.limit || k == 1)
  {
    SweepCountFrom(n, gamma, b, V, rule, 0);
    var k := SweepCount(n, gamma, b, V, rule, 0);
    if k > 1 {
      assert !rule.Stops(DeltaOf(n, gamma, b, V, k - 1), k - 1);
    }
  }

  /** At most one sweep count meets the stopping rule. */
  lemma StopsAtIsUnique(n: nat, gamma: real, b: Backup, V: map<Pos, real>, rule: StopRule, k1: nat, k2: nat)
    requires CoversValues(n, V) && Fits(n, b)
    requires StopsAt(n, gamma, b, V, rule, k1) && StopsAt(n, gamma, b, V, rule, k2)
    ensures k1 == k2
  {
  }

  /** A sweep leaves alone every cell it has not backed up: goal and trap
      cells, and the cells it has not reached yet. */
  lemma {:induction false} SweepKeepsValue(n: nat, gamma: real, b: Backup, V: map<Pos, real>, i: nat, j: nat, s: Pos)
    requires CoversValues(n, V) && Fits(n, b) && Stage(n, i, j)
    requires InGrid(n, s) && !Updated(n, s, i, j)
    ensures SweepValues(n, gamma, b, V, i, j)[s] == V[s]
    decreases i, j
  {
    if j == 0 {
      if i > 0 {
        SweepKeepsValue(n, gamma, b, V, i - 1, n, s);
      }
    } else {
      SweepKeepsValue(n, gamma, b, V, i, j - 1, s);
    }
  }

  /** An optimality sweep leaves alone the Q row of every cell it has not
      backed up. */
  lemma {:induction false} SweepKeepsRow(n: nat, gamma: real, V: map<Pos, real>, Q: map<Pos, Row>, i: nat, j: nat, s: Pos)
    requires CoversValues(n, V) && CoversRows(n, Q) && Stage(n, i, j)
    requires InGrid(n, s) && !Updated(n, s, i, j)
    ensures SweepRows(n, gamma, V, Q, i, j)[s] == Q[s]
    decreases i, j
  {
    if j == 0 {
      if i > 0 {
        SweepKeepsRow(n, gamma, V, Q, i - 1, n, s);
      }
    } else {
      SweepKeepsRow(n, gamma, V, Q, i, j - 1, s);
    }
  }

  /** The value a cell s sees for its neighbour m during an in-place sweep
      from V0 to V1: the new value if m comes earlier in row-major order,
      the old one otherwise. */
  function SeenValue(n: nat, V0: map<Pos, real>, V1: map<Pos, real>, s: Pos, m: Pos): real
    requires InGrid(n, m) && CoversValues(n, V0) && CoversValues(n, V1)
  {
    if Before(m, s) then V1[m] else V0[m]
  }

  function InPlaceLookahead(n: nat, gamma: real, V0: map<Pos, real>, V1: map<Pos, real>, s: Pos, a: Action): real
    requires InGrid(n, s) && CoversValues(n, V0) && CoversValues(n, V1)
  {
    var next := Move(n, s, a);
    CellReward(next) + gamma * SeenValue(n, V0, V1, s, next)
  }

  /** The look-ahead row cell s is backed up with during a sweep from V0 to V1. */
  function InPlaceRow(n: nat, gamma: real, V0: map<Pos, real>, V1: map<Pos, real>, s: Pos): Row
    requires InGrid(n, s) && CoversValues(n, V0) && CoversValues(n, V1)
  {
    Row(InPlaceLookahead(n, gamma, V0, V1, s, Up), InPlaceLookahead(n, gamma, V0, V1, s, Down),
        InPlaceLookahead(n, gamma, V0, V1, s, Left), InPlaceLookahead(n, gamma, V0, V1, s, Right))
  }

  /** Cell s of V1 holds the backup of the row it saw during an in-place
      sweep that started from V0. */
  ghost predicate BackedUpInPlace(n: nat, gamma: real, b: Backup, V0: map<Pos, real>, V1: map<Pos, real>, s: Pos)
    requires CoversValues(n, V0) && CoversValues(n, V1) && Fits(n, b) && InGrid(n, s)
  {
    V1[s] == Combine(n, b, s, InPlaceRow(n, gamma, V0, V1, s))
  }

  /** W holds the old value (from V) of every cell from c on in row-major
      order: the state of an in-place sweep that has just reached c. */
  ghost predicate OldFrom(n: nat, V: map<Pos, real>, W: map<Pos, real>, c: Pos)
    requires CoversValues(n, V) && CoversValues(n, W)
  {
    forall m {:trigger Before(m, c)} :: InGrid(n, m) && !Before(m, c) ==> W[m] == V[m]
  }

  /** Backing up c against W, where the cells from c on are still old, uses
      exactly the row c sees in place: one action. */
  lemma StepSeesInPlace(n: nat, gamma: real, b: Backup, V: map<Pos, real>, W: map<Pos, real>, c: Pos, a: Action)
    requires CoversValues(n, V) && CoversValues(n, W) && Fits(n, b) && InGrid(n, c)
    requires OldFrom(n, V, W, c)
    ensures Lookahead(n, gamma, W, c, a) == InPlaceLookahead(n, gamma, V, StepValues(n, gamma, b, W, c), c, a)
  {
    var m := Move(n, c, a);
    assert W[m] == SeenValue(n, V, StepValues(n, gamma, b, W, c), c, m);
  }

  /** The same for the whole row. */
  lemma StepSeesInPlaceRow(n: nat, gamma: real, b: Backup, V: map<Pos, real>, W: map<Pos, real>, c: Pos)
    requires CoversValues(n, V) && CoversValues(n, W) && Fits(n, b) && InGrid(n, c)
    requires OldFrom(n, V, W, c)
    ensures LookaheadRow(n, gamma, W, c) == InPlaceRow(n, gamma, V, StepValues(n, gamma, b, W, c), c)
  {
    StepSeesInPlace(n, gamma, b, V, W, c, Up);
    StepSeesInPlace(n, gamma, b, V, W, c, Down);
    StepSeesInPlace(n, gamma, b, V, W, c, Left);
    StepSeesInPlace(n, gamma, b, V, W, c, Right);
  }

  /** A sweep that has reached (i, j) still holds the old value of every cell
      from Pos(i, j) on. */
  lemma SweepOldFrom(n: nat, gamma: real, b: Backup, V: map<Pos, real>, i: nat, j: nat)
    requires CoversValues(n, V) && Fits(n, b) && Stage(n, i, j)
    ensures OldFrom(n, V, SweepValues(n, gamma, b, V, i, j), Pos(i, j))
  {
    forall m | InGrid(n, m) && !Before(m, Pos(i, j))
      ensures SweepValues(n, gamma, b, V, i, j)[m] == V[m]
    {
      SweepKeepsValue(n, gamma, b, V, i, j, m);
    }
  }

  /** Writing a cell that comes after s changes nothing s saw: one action. */
  lemma LaterWriteUnseenBy(n: nat, gamma: real, V0: map<Pos, real>, V1: map<Pos, real>, s: Pos, c: Pos, x: real, a: Action)
    requires InGrid(n, s) && InGrid(n, c) && CoversValues(n, V0) && CoversValues(n, V1) && Before(s, c)
    ensures InPlaceLookahead(n, gamma, V0, V1[c := x], s, a) == InPlaceLookahead(n, gamma, V0, V1, s, a)
  {
    var m := Move(n, s, a);
    assert SeenValue(n, V0, V1[c := x], s, m) == SeenValue(n, V0, V1, s, m);
  }

  /** The same for the whole row. */
  lemma LaterWriteUnseen(n: nat, gamma: real, V0: map<Pos, real>, V1: map<Pos, real>, s: Pos, c: Pos, x: real)
    requires InGrid(n, s) && InGrid(n, c) && CoversValues(n, V0) && CoversValues(n, V1) && Before(s, c)
    ensures InPlaceRow(n, gamma, V0, V1[c := x], s) == InPlaceRow(n, gamma, V0, V1, s)
  {
    LaterWriteUnseenBy(n, gamma, V0, V1, s, c, x, Up);
    LaterWriteUnseenBy(n, gamma, V0, V1, s, c, x, Down);
    LaterWriteUnseenBy(n, gamma, V0, V1, s, c, x, Left);
    LaterWriteUnseenBy(n, gamma, V0, V1, s, c, x, Right);
  }

  /** Processing a swept cell c whose later cells are still old leaves c
      holding the backup of the row it saw in place. */
  lemma StepBacksUpCurrent(n: nat, gamma: real, b: Backup, V: map<Pos, real>, W: map<Pos, real>, c: Pos)
    requires CoversValues(n, V) && CoversValues(n, W) && Fits(n, b) && Swept(n, c)
    requires OldFrom(n, V, W, c)
    ensures BackedUpInPlace(n, gamma, b, V, StepValues(n, gamma, b, W, c), c)
  {
    StepSeesInPlaceRow(n, gamma, b, V, W, c);
  }

  /** Processing c keeps the backup of every earlier cell s. */
  lemma StepKeepsBackedUp(n: nat, gamma: real, b: Backup, V: map<Pos, real>, W: map<Pos, real>, c: Pos, s: Pos)
    requires CoversValues(n, V) && CoversValues(n, W) && Fits(n, b) && InGrid(n, c) && InGrid(n, s) && Before(s, c)
    requires BackedUpInPlace(n, gamma, b, V, W, s)
    ensures BackedUpInPlace(n, gamma, b, V, StepValues(n, gamma, b, W, c), s)
  {
    if !IsTerminal(c) {
      LaterWriteUnseen(n, gamma, V, W, s, c, BackupValue(n, gamma, b, W, c));
    }
  }

  /** Gauss-Seidel: every cell a sweep has backed up holds the backup of
      the row it saw, which mixes the new values of earlier cells with the
      old values of later ones. */
  lemma {:induction false} SweepBacksUp(n: nat, gamma: real, b: Backup, V: map<Pos, real>, i: nat, j: nat, s: Pos)
    requires CoversValues(n, V) && Fits(n, b) && Stage(n, i, j) && Updated(n, s, i, j)
    ensures BackedUpInPlace(n, gamma, b, V, SweepValues(n, gamma, b, V, i, j), s)
    decreases i, j, 1
  {
    if j == 0 {
      SweepBacksUp(n, gamma, b, V, i - 1, n, s);
    } else if s == Pos(i, j - 1) {
      SweepBacksUpCurrent(n, gamma, b, V, i, j);
    } else {
      SweepBacksUpEarlier(n, gamma, b, V, i, j, s);
    }
  }

  /** The cell a sweep has just processed holds its in-place backup. */
  lemma SweepBacksUpCurrent(n: nat, gamma: real, b: Backup, V: map<Pos, real>, i: nat, j: nat)
    requires CoversValues(n, V) && Fits(n, b) && i < n && 0 < j <= n && Swept(n, Pos(i, j - 1))
    ensures BackedUpInPlace(n, gamma, b, V, SweepValues(n, gamma, b, V, i, j), Pos(i, j - 1))
  {
    SweepOldFrom(n, gamma, b, V, i, j - 1);
    StepBacksUpCurrent(n, gamma, b, V, SweepValues(n, gamma, b, V, i, j - 1), Pos(i, j - 1));
  }

  /** A cell processed earlier keeps its in-place backup. */
  lemma {:induction false} SweepBacksUpEarlier(n: nat, gamma: real, b: Backup, V: map<Pos, real>, i: nat, j: nat, s: Pos)
    requires CoversValues(n, V) && Fits(n, b) && i < n && 0 < j <= n && Updated(n, s, i, j - 1)
    ensures BackedUpInPlace(n, gamma, b, V, SweepValues(n, gamma, b, V, i, j), s)
    decreases i, j, 0
  {
    SweepBacksUp(n, gamma, b, V, i, j - 1, s);
    StepKeepsBackedUp(n, gamma, b, V, SweepValues(n, gamma, b, V, i, j - 1), Pos(i, j - 1), s);
  }

  /** Processing a swept cell c whose later cells are still old writes the
      row c sees in place into Q. */
  lemma StepRowCurrent(n: nat, gamma: real, V: map<Pos, real>, W: map<Pos, real>, Q: map<Pos, Row>, c: Pos)
    requires CoversValues(n, V) && CoversValues(n, W) && CoversRows(n, Q) && Swept(n, c)
    requires OldFrom(n, V, W, c)
    ensures StepRows(n, gamma, W, Q, c)[c] == InPlaceRow(n, gamma, V, StepValues(n, gamma, Optimal, W, c), c)
  {
    StepSeesInPlaceRow(n, gamma, Optimal, V, W, c);
  }

  /** Processing c keeps the row written for every earlier cell s. */
  lemma StepKeepsRow(n: nat, gamma: real, V: map<Pos, real>, W: map<Pos, real>, Q: map<Pos, Row>, c: Pos, s: Pos)
    requires CoversValues(n, V) && CoversValues(n, W) && CoversRows(n, Q) && InGrid(n, c) && InGrid(n, s) && Before(s, c)
    requires Q[s] == InPlaceRow(n, gamma, V, W, s)
    ensures StepRows(n, gamma, W, Q, c)[s] == InPlaceRow(n, gamma, V, StepValues(n, gamma, Optimal, W, c), s)
  {
    if !IsTerminal(c) {
      LaterWriteUnseen(n, gamma, V, W, s, c, BackupValue(n, gamma, Optimal, W, c));
    }
  }

  /** Every Q row an optimality sweep has written is the look-ahead row its
      cell saw in place. */
  lemma {:induction false} SweepRowsBackUp(n: nat, gamma: real, V: map<Pos, real>, Q: map<Pos, Row>, i: nat, j: nat, s: Pos)
    requires CoversValues(n, V) && CoversRows(n, Q) && Stage(n, i, j) && Updated(n, s, i, j)
    ensures SweepRows(n, gamma, V, Q, i, j)[s] == InPlaceRow(n, gamma, V, SweepValues(n, gamma, Optimal, V, i, j), s)
    decreases i, j, 1
  {
    if j == 0 {
      SweepRowsBackUpNextRow(n, gamma, V, Q, i, s);
    } else if s == Pos(i, j - 1) {
      SweepRowsBackUpCurrent(n, gamma, V, Q, i, j);
    } else {
      SweepRowsBackUpEarlier(n, gamma, V, Q, i, j, s);
    }
  }

  /** Starting a new grid row changes no Q row. */
  lemma {:induction false} SweepRowsBackUpNextRow(n: nat, gamma: real, V: map<Pos, real>, Q: map<Pos, Row>, i: nat, s: Pos)
    requires CoversValues(n, V) && CoversRows(n, Q) && 0 < i <= n && Updated(n, s, i - 1, n)
    ensures SweepRows(n, gamma, V, Q, i, 0)[s] == InPlaceRow(n, gamma, V, SweepValues(n, gamma, Optimal, V, i, 0), s)
    decreases i, 0, 0
  {
    SweepRowsBackUp(n, gamma, V, Q, i - 1, n, s);
  }

  /** The row written for the cell a sweep has just processed. */
  lemma SweepRowsBackUpCurrent(n: nat, gamma: real, V: map<Pos, real>, Q: map<Pos, Row>, i: nat, j: nat)
    requires CoversValues(n, V) && CoversRows(n, Q) && i < n && 0 < j <= n && Swept(n, Pos(i, j - 1))
    ensures SweepRows(n, gamma, V, Q, i, j)[Pos(i, j - 1)] == InPlaceRow(n, gamma, V, SweepValues(n, gamma, Optimal, V, i, j), Pos(i, j - 1))
  {
    SweepOldFrom(n, gamma, Optimal, V, i, j - 1);
    StepRowCurrent(n, gamma, V, SweepValues(n, gamma, Optimal, V, i, j - 1), SweepRows(n, gamma, V, Q, i, j - 1), Pos(i, j - 1));
  }

  /** The row written for a cell processed earlier stays as written. */
  lemma {:induction false} SweepRowsBackUpEarlier(n: nat, gamma: real, V: map<Pos, real>, Q: map<Pos, Row>, i: nat, j: nat, s: Pos)
    requires CoversValues(n, V) && CoversRows(n, Q) && i < n && 0 < j <= n && Updated(n, s, i, j - 1)
    ensures SweepRows(n, gamma, V, Q, i, j)[s] == InPlaceRow(n, gamma, V, SweepValues(n, gamma, Optimal, V, i, j), s)
    decreases i, j, 0
  {
    SweepRowsBackUp(n, gamma, V, Q, i, j - 1, s);
    StepKeepsRow(n, gamma, V, SweepValues(n, gamma, Optimal, V, i, j - 1), SweepRows(n, gamma, V, Q, i, j - 1), Pos(i, j - 1), s);
  }

  /** d is the largest |V0[s] - V[s]| over the swept cells before lim in
      row-major order, and 0 when there are none. */
  ghost predicate IsLargestChange(n: nat, V0: map<Pos, real>, V: map<Pos, real>, d: real, lim: Pos)
    requires CoversValues(n, V0) && CoversValues(n, V)
  {
    d >= 0.0 &&
    (forall s {:trigger Before(s, lim)} :: Swept(n, s) && Before(s, lim) ==> Abs(V0[s] - V[s]) <= d) &&
    (d == 0.0 || exists s {:trigger Before(s, lim)} :: Swept(n, s) && Before(s, lim) && d == Abs(V0[s] - V[s]))
  }

  /** Writing x into cell c (still holding its old value) and raising d to
      the size of that change extends the largest change to c. */
  lemma ExtendLargestChange(n: nat, V0: map<Pos, real>, V: map<Pos, real>, d: real, c: Pos, x: real)
    requires CoversValues(n, V0) && CoversValues(n, V) && Swept(n, c)
    requires V[c] == V0[c]
    requires IsLargestChange(n, V0, V, d, c)
    ensures IsLargestChange(n, V0, V[c := x], RealMax(d, Abs(V[c] - x)), Pos(c.row, c.col + 1))
  {
    var V1 := V[c := x];
    var d1 := RealMax(d, Abs(V[c] - x));
    var lim := Pos(c.row, c.col + 1);
    forall s | Swept(n, s) && Before(s, lim) ensures Abs(V0[s] - V1[s]) <= d1 {
      if s != c {
        assert Before(s, c);
      }
    }
    if d1 != 0.0 {
      if d1 == Abs(V[c] - x) {
        assert Swept(n, c) && Before(c, lim) && d1 == Abs(V0[c] - V1[c]);
      } else {
        var s :| Swept(n, s) && Before(s, c) && d == Abs(V0[s] - V[s]);
        assert Before(s, lim) && V1[s] == V[s];
      }
    }
  }

  /** Skipping a goal or trap cell c extends the largest change to c. */
  lemma SkipLargestChange(n: nat, V0: map<Pos, real>, V: map<Pos, real>, d: real, c: Pos)
    requires CoversValues(n, V0) && CoversValues(n, V) && IsTerminal(c)
    requires IsLargestChange(n, V0, V, d, c)
    ensures IsLargestChange(n, V0, V, d, Pos(c.row, c.col + 1))
  {
    var lim := Pos(c.row, c.col + 1);
    forall s | Swept(n, s) && Before(s, lim) ensures Before(s, c) { }
    if d != 0.0 {
      var s :| Swept(n, s) && Before(s, c) && d == Abs(V0[s] - V[s]);
      assert Before(s, lim);
    }
  }

  /** Processing c, which still holds its old value, extends the largest
      change to c. */
  lemma StepExtendsLargestChange(n: nat, gamma: real, b: Backup, V0: map<Pos, real>, V: map<Pos, real>, d: real, c: Pos)
    requires CoversValues(n, V0) && CoversValues(n, V) && Fits(n, b) && InGrid(n, c)
    requires V[c] == V0[c]
    requires IsLargestChange(n, V0, V, d, c)
    ensures IsLargestChange(n, V0, StepValues(n, gamma, b, V, c), StepDelta(n, gamma, b, V, d, c), Pos(c.row, c.col + 1))
  {
    if IsTerminal(c) {
      SkipLargestChange(n, V0, V, d, c);
    } else {
      ExtendLargestChange(n, V0, V, d, c, BackupValue(n, gamma, b, V, c));
    }
  }

  /** Moving from the end of row i - 1 to the start of row i changes nothing. */
  lemma LargestChangeNextRow(n: nat, V0: map<Pos, real>, V: map<Pos, real>, d: real, i: nat)
    requires CoversValues(n, V0) && CoversValues(n, V) && i > 0
    requires IsLargestChange(n, V0, V, d, Pos(i - 1, n))
    ensures IsLargestChange(n, V0, V, d, Pos(i, 0))
  {
    forall s | Swept(n, s) && Before(s, Pos(i, 0)) ensures Before(s, Pos(i - 1, n)) { }
    if d != 0.0 {
      var s :| Swept(n, s) && Before(s, Pos(i - 1, n)) && d == Abs(V0[s] - V[s]);
      assert Before(s, Pos(i, 0));
    }
  }

  /** The running delta is the largest |old V[s] - new V[s]| over the
      cells backed up so far, and 0 when there are none. */
  lemma {:induction false} DeltaIsLargestChange(n: nat, gamma: real, b: Backup, V: map<Pos, real>, i: nat, j: nat)
    requires CoversValues(n, V) && Fits(n, b) && Stage(n, i, j)
    ensures IsLargestChange(n, V, SweepValues(n, gamma, b, V, i, j), SweepDelta(n, gamma, b, V, i, j), Pos(i, j))
    decreases i, j
  {
    if j == 0 {
      if i > 0 {
        DeltaIsLargestChange(n, gamma, b, V, i - 1, n);
        LargestChangeNextRow(n, V, SweepValues(n, gamma, b, V, i - 1, n), SweepDelta(n, gamma, b, V, i - 1, n), i);
      }
    } else {
      var c := Pos(i, j - 1);
      DeltaIsLargestChange(n, gamma, b, V, i, j - 1);
      SweepKeepsValue(n, gamma, b, V, i, j - 1, c);
      StepExtendsLargestChange(n, gamma, b, V, SweepValues(n, gamma, b, V, i, j - 1), SweepDelta(n, gamma, b, V, i, j - 1), c);
    }
  }

  /** Every swept cell lies before the end of the grid, so the largest
      change up to Pos(n, 0) is the largest change over all swept cells. */
  lemma LargestChangeWhole(n: nat, V0: map<Pos, real>, V: map<Pos, real>, d: real)
    requires CoversValues(n, V0) && CoversValues(n, V)
    requires IsLargestChange(n, V0, V, d, Pos(n, 0))
    ensures d >= 0.0 && (forall s :: Swept(n, s) ==> Abs(V0[s] - V[s]) <= d)
    ensures d == 0.0 || exists s :: Swept(n, s) && d == Abs(V0[s] - V[s])
  {
    forall s | Swept(n, s) ensures Before(s, Pos(n, 0)) { }
  }

  /** The delta of sweep k is the largest change that sweep made to a
      swept cell, and 0 when it changed none. */
  lemma DeltaOfIsLargestChange(n: nat, gamma: real, b: Backup, V: map<Pos, real>, k: nat)
    requires CoversValues(n, V) && Fits(n, b) && k >= 1
    ensures var d := DeltaOf(n, gamma, b, V, k);
      var prev := ValuesAfter(n, gamma, b, V, k - 1);
      var cur := ValuesAfter(n, gamma, b, V, k);
      d >= 0.0 && (forall s :: Swept(n, s) ==> Abs(prev[s] - cur[s]) <= d) &&
      (d == 0.0 || exists s :: Swept(n, s) && d == Abs(prev[s] - cur[s]))
  {
    var prev := ValuesAfter(n, gamma, b, V, k - 1);
    DeltaIsLargestChange(n, gamma, b, prev, n, 0);
    LargestChangeWhole(n, prev, SweepValues(n, gamma, b, prev, n, 0), DeltaOf(n, gamma, b, V, k));
  }

  /** Goal and trap cells keep their value through any number of sweeps. */
  lemma {:induction false} SweepsKeepTerminalValue(n: nat, gamma: real, b: Backup, V: map<Pos, real>, k: nat, s: Pos)
    requires CoversValues(n, V) && Fits(n, b) && InGrid(n, s) && IsTerminal(s)
    ensures ValuesAfter(n, gamma, b, V, k)[s] == V[s]
  {
    if k > 0 {
      SweepsKeepTerminalValue(n, gamma, b, V, k - 1, s);
      SweepKeepsValue(n, gamma, b, ValuesAfter(n, gamma, b, V, k - 1), n, 0, s);
    }
  }

  /** Goal and trap cells keep their Q row through any number of
      optimality sweeps. */
  lemma {:induction false} SweepsKeepTerminalRow(n: nat, gamma: real, V: map<Pos, real>, Q: map<Pos, Row>, k: nat, s: Pos)
    requires CoversValues(n, V) && CoversRows(n, Q) && InGrid(n, s) && IsTerminal(s)
    ensures RowsAfter(n, gamma, V, Q, k)[s] == Q[s]
  {
    if k > 0 {
      SweepsKeepTerminalRow(n, gamma, V, Q, k - 1, s);
      SweepKeepsTerminalRow(n, gamma, V, Q, k, s);
    }
  }

  lemma SweepKeepsTerminalRow(n: nat, gamma: real, V: map<Pos, real>, Q: map<Pos, Row>, k: nat, s: Pos)
    requires CoversValues(n, V) && CoversRows(n, Q) && InGrid(n, s) && IsTerminal(s) && k >= 1
    ensures RowsAfter(n, gamma, V, Q, k)[s] == RowsAfter(n, gamma, V, Q, k - 1)[s]
  {
    SweepKeepsRow(n, gamma, ValuesAfter(n, gamma, Optimal, V, k - 1), RowsAfter(n, gamma, V, Q, k - 1), n, 0, s);
  }
}
