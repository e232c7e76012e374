/** One row of a Q table or of a policy: a value for each of the four
    actions, keyed in the order up, down, left, right (the order in which
    every row dictionary is built, and so the order max() scans it in). */
module Rows {
  import opened Lake

  /** max(a, b) as the source evaluates it. */
  function RealMax(a: real, b: real): (m: real)
    ensures m >= a && m >= b && (m == a || m == b)
  {
    if a >= b then a else b
  }

  function Abs(x: real): (r: real)
    ensures r >= 0.0 && (r == x || r == -x)
  {
    if x < 0.0 then -x else x
  }

  datatype Row = Row(up: real, down: real, left: real, right: real)
  {
    /** The entry of the action at index k of ACTIONS. */
    function Get(k: ActionIndex): real {
      if k == 0 then up else if k == 1 then down else if k == 2 then left else right
    }

    /** The row with the entry of action k replaced by v. */
    function Set(k: ActionIndex, v: real): (r: Row)
      ensures r.Get(k) == v
      ensures forall m: ActionIndex :: m != k ==> r.Get(m) == Get(m)
    {
      if k == 0 then this.(up := v)
      else if k == 1 then this.(down := v)
      else if k == 2 then this.(left := v)
      else this.(right := v)
    }
  }

  const ZERO_ROW: Row := Row(0.0, 0.0, 0.0, 0.0)

  /** Two rows that agree on every action are the same row. */
  lemma RowsEqual(a: Row, b: Row)
    requires forall k: ActionIndex :: a.Get(k) == b.Get(k)
    ensures a == b
  {
    assert a.Get(0) == b.Get(0) && a.Get(1) == b.Get(1);
    assert a.Get(2) == b.Get(2) && a.Get(3) == b.Get(3);
  }

  /** The largest entry, as max(row.values()) folds it in key order. */
  function RowMax(r: Row): real {
    RealMax(RealMax(RealMax(r.up, r.down), r.left), r.right)
  }

  /** The running maximum of the first k entries, in key order. */
  function PrefixMax(r: Row, k: nat): real
    requires 1 <= k <= 4
  {
    if k == 1 then r.up else RealMax(PrefixMax(r, k - 1), r.Get(k - 1))
  }

  /** The running maximum over all four entries is the row maximum. */
  lemma PrefixMaxWhole(r: Row)
    ensures PrefixMax(r, 4) == RowMax(r)
  {
    assert PrefixMax(r, 2) == RealMax(r.up, r.down);
    assert PrefixMax(r, 3) == RealMax(PrefixMax(r, 2), r.left);
  }

  /** The row maximum is an entry of the row and bounds every entry. */
  lemma RowMaxIsMax(r: Row)
    ensures exists k: ActionIndex :: r.Get(k) == RowMax(r)
    ensures forall k: ActionIndex :: r.Get(k) <= RowMax(r)
  {
    var m := RowMax(r);
    if m == r.up {
      assert r.Get(0) == m;
    } else if m == r.down {
      assert r.Get(1) == m;
    } else if m == r.left {
      assert r.Get(2) == m;
    } else {
      assert r.Get(3) == m;
    }
  }

  /** k is the first action whose entry is largest. */
  ghost predicate IsFirstMax(r: Row, k: ActionIndex) {
    (forall m: ActionIndex :: r.Get(m) <= r.Get(k)) &&
    (forall m: ActionIndex :: m < k ==> r.Get(m) < r.Get(k))
  }

  /** The key that max(row, key=row.get) returns: keys are scanned in
      order and the best key is replaced only by a strictly larger entry,
      so ties go to the earliest action. */
  function FirstArgMax(r: Row): ActionIndex {
    var k1: ActionIndex := if r.down > r.up then 1 else 0;
    var k2: ActionIndex := if r.left > r.Get(k1) then 2 else k1;
    if r.right > r.Get(k2) then 3 else k2
  }

  /** The scan finds the first action whose entry is largest. */
  lemma FirstArgMaxIsFirstMax(r: Row)
    ensures IsFirstMax(r, FirstArgMax(r))
  {
  }

  /** At most one action is the first with the largest entry. */
  lemma FirstMaxIsUnique(r: Row, k1: ActionIndex, k2: ActionIndex)
    requires IsFirstMax(r, k1) && IsFirstMax(r, k2)
    ensures k1 == k2
  {
    assert r.Get(k1) <= r.Get(k2) && r.Get(k2) <= r.Get(k1);
  }

  /** The entry of the first argmax is the row maximum. */
  lemma FirstArgMaxAttainsMax(r: Row)
    ensures r.Get(FirstArgMax(r)) == RowMax(r)
  {
    RowMaxIsMax(r);
    FirstArgMaxIsFirstMax(r);
  }

  /** The deterministic distribution with mass 1.0 on action k and 0.0
      on the others. */
  function OneHot(k: ActionIndex): Row {
    Row(if k == 0 then 1.0 else 0.0, if k == 1 then 1.0 else 0.0,
        if k == 2 then 1.0 else 0.0, if k == 3 then 1.0 else 0.0)
  }

  /** Decoding a one-hot row with the first argmax gives back its action. */
  lemma FirstArgMaxOfOneHot(k: ActionIndex)
    ensures FirstArgMax(OneHot(k)) == k
    ensures OneHot(k).Get(k) == 1.0 && forall m: ActionIndex :: m != k ==> OneHot(k).Get(m) == 0.0
  {
  }

  /** The uniform starting distribution: 1 / 4 on every action. */
  const UNIFORM: Row := Row(0.25, 0.25, 0.25, 0.25)

  /** Sum of p[a] * v[a], accumulated in key order from 0. */
  function Dot(p: Row, v: Row): real {
    0.0 + p.up * v.up + p.down * v.down + p.left * v.left + p.right * v.right
  }

  /** The sum p[a] * v[a] over the first k actions, accumulated in key
      order from 0. */
  function PrefixDot(p: Row, v: Row, k: nat): real
    requires k <= 4
  {
    if k == 0 then 0.0 else PrefixDot(p, v, k - 1) + p.Get(k - 1) * v.Get(k - 1)
  }

  /** Accumulating over all four actions gives the weighted sum. */
  lemma PrefixDotWhole(p: Row, v: Row)
    ensures PrefixDot(p, v, 4) == Dot(p, v)
  {
    assert PrefixDot(p, v, 1) == 0.0 + p.up * v.up;
    assert PrefixDot(p, v, 2) == PrefixDot(p, v, 1) + p.down * v.down;
    assert PrefixDot(p, v, 3) == PrefixDot(p, v, 2) + p.left * v.left;
  }

  /** Weighting by a one-hot row picks out the chosen entry: evaluating a
      deterministic policy backs up the value of its single action. */
  lemma DotOneHot(v: Row, k: ActionIndex)
    ensures Dot(OneHot(k), v) == v.Get(k)
  {
  }

  /** Weighting by the uniform row gives the mean entry. */
  lemma DotUniform(v: Row)
    ensures Dot(UNIFORM, v) == (v.up + v.down + v.left + v.right) / 4.0
  {
  }
}
