/** `tensor[mask].sum()`: the sum of the entries of a tensor at the anchors a
    boolean mask selects. Real addition is exact here, so the order in which
    torch adds the selected entries does not matter. */
module MaskedSums {
  import opened Masks

  /** `v[m].sum()` over one row. */
  function MaskedSum(v: seq<real>, m: seq<bool>): real
    requires |v| == |m|
  {
    if v == [] then 0.0 else (if m[0] then v[0] else 0.0) + MaskedSum(v[1..], m[1..])
  }

  /** `v[m].sum()` over a whole [batch_size, num_anchors] grid. */
  function GridMaskedSum(v: seq<seq<real>>, m: seq<seq<bool>>): real
    requires SameGrid(v, m)
  {
    if v == [] then 0.0 else MaskedSum(v[0], m[0]) + GridMaskedSum(v[1..], m[1..])
  }

  predicate Nonnegative(v: seq<seq<real>>) {
    forall b, a :: 0 <= b < |v| && 0 <= a < |v[b]| ==> 0.0 <= v[b][a]
  }

  /** Summing non-negative entries gives a non-negative total, and the total is
      zero exactly when every selected entry is. */
  lemma {:induction false} MaskedSumNonnegative(v: seq<real>, m: seq<bool>)
    requires |v| == |m|
    requires forall i :: 0 <= i < |v| ==> 0.0 <= v[i]
    ensures 0.0 <= MaskedSum(v, m)
    ensures MaskedSum(v, m) == 0.0 <==> forall i :: 0 <= i < |v| && m[i] ==> v[i] == 0.0
  {
    if v != [] {
      MaskedSumNonnegative(v[1..], m[1..]);
      assert forall i :: 1 <= i < |v| ==> v[1..][i - 1] == v[i] && m[1..][i - 1] == m[i];
    }
  }

  lemma {:induction false} GridMaskedSumNonnegative(v: seq<seq<real>>, m: seq<seq<bool>>)
    requires SameGrid(v, m) && Nonnegative(v)
    ensures 0.0 <= GridMaskedSum(v, m)
    ensures GridMaskedSum(v, m) == 0.0 <==>
      forall b, a :: 0 <= b < |v| && 0 <= a < |v[b]| && m[b][a] ==> v[b][a] == 0.0
  {
    if v != [] {
      MaskedSumNonnegative(v[0], m[0]);
      GridMaskedSumNonnegative(v[1..], m[1..]);
      assert forall b :: 1 <= b < |v| ==> v[1..][b - 1] == v[b] && m[1..][b - 1] == m[b];
    }
  }

  /** Only the selected entries matter. */
  lemma {:induction false} MaskedSumLocal(v: seq<real>, w: seq<real>, m: seq<bool>)
    requires |v| == |m| && |w| == |m|
    requires forall i :: 0 <= i < |m| && m[i] ==> v[i] == w[i]
    ensures MaskedSum(v, m) == MaskedSum(w, m)
  {
    if v != [] {
      MaskedSumLocal(v[1..], w[1..], m[1..]);
    }
  }

  lemma {:induction false} GridMaskedSumLocal(v: seq<seq<real>>, w: seq<seq<real>>, m: seq<seq<bool>>)
    requires SameGrid(v, m) && SameGrid(w, m)
    requires forall b, a :: 0 <= b < |m| && 0 <= a < |m[b]| && m[b][a] ==> v[b][a] == w[b][a]
    ensures GridMaskedSum(v, m) == GridMaskedSum(w, m)
  {
    if v != [] {
      MaskedSumLocal(v[0], w[0], m[0]);
      GridMaskedSumLocal(v[1..], w[1..], m[1..]);
    }
  }

  /** Grids that differ only in a row the mask leaves out have the same sum. */
  lemma GridMaskedSumSkipsRow(v: seq<seq<real>>, w: seq<seq<real>>, m: seq<seq<bool>>, row: nat)
    requires SameGrid(v, m) && SameGrid(w, m) && row < |m|
    requires forall b :: 0 <= b < |m| && b != row ==> v[b] == w[b]
    requires forall a :: 0 <= a < |m[row]| ==> !m[row][a]
    ensures GridMaskedSum(v, m) == GridMaskedSum(w, m)
  {
    forall b, a | 0 <= b < |m| && 0 <= a < |m[b]| && m[b][a]
      ensures v[b][a] == w[b][a]
    {
      assert b != row;
    }
    GridMaskedSumLocal(v, w, m);
  }

  /** Summing over `p | q` is summing over p and then over the anchors of q
      outside p. */
  lemma {:induction false} MaskedSumOr(v: seq<real>, p: seq<bool>, q: seq<bool>)
    requires |v| == |p| == |q|
    ensures MaskedSum(v, Or(p, q)) == MaskedSum(v, p) + MaskedSum(v, AndNot(q, p))
  {
    if v != [] {
      assert Or(p, q)[1..] == Or(p[1..], q[1..]);
      assert AndNot(q, p)[1..] == AndNot(q[1..], p[1..]);
      MaskedSumOr(v[1..], p[1..], q[1..]);
    }
  }

  lemma {:induction false} GridMaskedSumOr(v: seq<seq<real>>, p: seq<seq<bool>>, q: seq<seq<bool>>)
    requires SameGrid(v, p) && SameGrid(p, q)
    ensures SameGrid(v, GridOr(p, q)) && SameGrid(v, GridAndNot(q, p))
    ensures GridMaskedSum(v, GridOr(p, q)) == GridMaskedSum(v, p) + GridMaskedSum(v, GridAndNot(q, p))
  {
    if v != [] {
      MaskedSumOr(v[0], p[0], q[0]);
      assert GridOr(p, q)[1..] == GridOr(p[1..], q[1..]);
      assert GridAndNot(q, p)[1..] == GridAndNot(q[1..], p[1..]);
      GridMaskedSumOr(v[1..], p[1..], q[1..]);
    }
  }

  /** Selecting more non-negative entries gives a total no smaller. */
  lemma {:induction false} MaskedSumMonotone(v: seq<real>, p: seq<bool>, q: seq<bool>)
    requires |v| == |p| == |q|
    requires forall i :: 0 <= i < |v| ==> 0.0 <= v[i]
    requires forall i :: 0 <= i < |v| && p[i] ==> q[i]
    ensures MaskedSum(v, p) <= MaskedSum(v, q)
  {
    if v != [] {
      MaskedSumMonotone(v[1..], p[1..], q[1..]);
    }
  }

  lemma {:induction false} GridMaskedSumMonotone(v: seq<seq<real>>, p: seq<seq<bool>>, q: seq<seq<bool>>)
    requires SameGrid(v, p) && SameGrid(p, q) && Nonnegative(v)
    requires forall b, a :: 0 <= b < |p| && 0 <= a < |p[b]| && p[b][a] ==> q[b][a]
    ensures GridMaskedSum(v, p) <= GridMaskedSum(v, q)
  {
    if v != [] {
      MaskedSumMonotone(v[0], p[0], q[0]);
      GridMaskedSumMonotone(v[1..], p[1..], q[1..]);
    }
  }
}
