/** Loops made of rounds.  A round maps a state to the next state and a
    flag that says whether the loop stops after it.  A loop entered at
    round i with a budget of `max` rounds makes rounds until one reports
    stop or the budget is spent, and ends on the state its last round
    produced. */
module Iteration {

  /** The state after j rounds made one after the other from t. */
  function After<T>(round: T -> (T, bool), t: T, j: nat): T
  {
    if j == 0 then t else After(round, round(t).0, j - 1)
  }

  /** The state a loop entered at round i ends on. */
  function Loop<T>(round: T -> (T, bool), t: T, max: int, i: nat): T
    decreases if max > i then max - i else 0
  {
    if i >= max then t
    else if round(t).1 then round(t).0
    else Loop(round, round(t).0, max, i + 1)
  }

  /** The number of rounds a loop entered at round i makes. */
  function Made<T>(round: T -> (T, bool), t: T, max: int, i: nat): (m: nat)
    ensures i < max ==> 1 <= m <= max - i
    decreases if max > i then max - i else 0
  {
    if i >= max then 0
    else if round(t).1 then 1
    else 1 + Made(round, round(t).0, max, i + 1)
  }

  /** A property of states that every round keeps holds of the state
      after any number of rounds from a state that has it. */
  lemma {:induction false} AfterKeeps<T>(round: T -> (T, bool), keep: T -> bool, t: T, j: nat)
    requires keep(t)
    requires forall x :: keep(x) ==> keep(round(x).0)
    ensures keep(After(round, t, j))
    decreases j
  {
    if j > 0 {
      AfterKeeps(round, keep, round(t).0, j - 1);
    }
  }

  /** A loop with budget left ends on the result of its last round, made
      on the state after all earlier rounds. */
  lemma {:induction false} LoopIsLastRound<T>(round: T -> (T, bool), t: T, max: int, i: nat)
    requires i < max
    ensures forall j: nat :: j + 1 == Made(round, t, max, i) ==> Loop(round, t, max, i) == round(After(round, t, j)).0
    decreases max - i
  {
    var u := round(t).0;
    if !round(t).1 && i + 1 < max {
      LoopIsLastRound(round, u, max, i + 1);
      var m := Made(round, u, max, i + 1);
      assert After(round, t, m) == After(round, u, m - 1);
    }
  }

  /** Every round of a loop before its last reported go on. */
  lemma {:induction false} LoopGoesOnBeforeLastRound<T>(round: T -> (T, bool), t: T, max: int, i: nat)
    requires i < max
    ensures forall j: nat :: j < Made(round, t, max, i) - 1 ==> !round(After(round, t, j)).1
    decreases max - i
  {
    var u := round(t).0;
    if !round(t).1 && i + 1 < max {
      LoopGoesOnBeforeLastRound(round, u, max, i + 1);
      forall j: nat | j < Made(round, u, max, i + 1)
        ensures !round(After(round, t, j)).1
      {
        if j > 0 {
          assert After(round, t, j) == After(round, u, j - 1);
        }
      }
    }
  }

  /** A loop that makes fewer rounds than its budget ends because its last
      round reported stop. */
  lemma {:induction false} LoopStopsEarlyOnStop<T>(round: T -> (T, bool), t: T, max: int, i: nat)
    requires i < max
    ensures forall j: nat :: j + 1 == Made(round, t, max, i) < max - i ==> round(After(round, t, j)).1
    decreases max - i
  {
    var u := round(t).0;
    if !round(t).1 && i + 1 < max {
      LoopStopsEarlyOnStop(round, u, max, i + 1);
      var m := Made(round, u, max, i + 1);
      assert After(round, t, m) == After(round, u, m - 1);
    }
  }
}
