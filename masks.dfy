/** Boolean rows of a [batch_size, num_anchors] mask, the operations the loss
    applies to them (`|`, `~`, `.sum()`), and how counts behave under them. */
module Masks {

  function Min(a: int, b: int): int {
    if a <= b then a else b
  }

  /** `mask.sum()` over one row: the number of anchors that are set. */
  function CountTrue(m: seq<bool>): (c: nat)
    ensures c <= |m|
  {
    if m == [] then 0 else (if m[0] then 1 else 0) + CountTrue(m[1..])
  }

  /** `~m` */
  function Not(m: seq<bool>): (r: seq<bool>)
    ensures |r| == |m|
  {
    seq(|m|, i requires 0 <= i < |m| => !m[i])
  }

  /** `p | q` */
  function Or(p: seq<bool>, q: seq<bool>): (r: seq<bool>)
    requires |p| == |q|
    ensures |r| == |p|
  {
    seq(|p|, i requires 0 <= i < |p| => p[i] || q[i])
  }

  /** `p & ~q` */
  function AndNot(p: seq<bool>, q: seq<bool>): (r: seq<bool>)
    requires |p| == |q|
    ensures |r| == |p|
  {
    seq(|p|, i requires 0 <= i < |p| => p[i] && !q[i])
  }

  lemma {:induction false} CountTrueAppend(a: seq<bool>, b: seq<bool>)
    ensures CountTrue(a + b) == CountTrue(a) + CountTrue(b)
  {
    if a == [] {
      assert a + b == b;
    } else {
      assert (a + b)[1..] == a[1..] + b;
      CountTrueAppend(a[1..], b);
    }
  }

  /** The anchors of a row that are set and those that are not make up the row. */
  lemma {:induction false} CountNot(m: seq<bool>)
    ensures CountTrue(Not(m)) == |m| - CountTrue(m)
  {
    if m != [] {
      assert Not(m)[1..] == Not(m[1..]);
      CountNot(m[1..]);
    }
  }

  /** A mask that implies another anchor by anchor counts no more. */
  lemma {:induction false} CountMonotone(p: seq<bool>, q: seq<bool>)
    requires |p| == |q|
    requires forall i :: 0 <= i < |p| && p[i] ==> q[i]
    ensures CountTrue(p) <= CountTrue(q)
  {
    if p != [] {
      CountMonotone(p[1..], q[1..]);
    }
  }

  /** A row counts zero exactly when no anchor in it is set. */
  lemma {:induction false} CountZero(m: seq<bool>)
    ensures CountTrue(m) == 0 <==> forall i :: 0 <= i < |m| ==> !m[i]
  {
    if m != [] {
      CountZero(m[1..]);
      assert forall i :: 1 <= i < |m| ==> m[1..][i - 1] == m[i];
    }
  }

  /** A row counts its full length exactly when every anchor in it is set. */
  lemma {:induction false} CountFull(m: seq<bool>)
    ensures CountTrue(m) == |m| <==> forall i :: 0 <= i < |m| ==> m[i]
  {
    if m != [] {
      CountFull(m[1..]);
      assert forall i :: 1 <= i < |m| ==> m[1..][i - 1] == m[i];
    }
  }

  /** The anchors of `p | q` are those of p and, apart from them, those of q. */
  lemma {:induction false} CountOr(p: seq<bool>, q: seq<bool>)
    requires |p| == |q|
    ensures CountTrue(Or(p, q)) == CountTrue(p) + CountTrue(AndNot(q, p))
  {
    if p != [] {
      assert Or(p, q)[1..] == Or(p[1..], q[1..]);
      assert AndNot(q, p)[1..] == AndNot(q[1..], p[1..]);
      CountOr(p[1..], q[1..]);
    }
  }

  /** Removing anchors a mask never shares with q changes nothing. */
  lemma AndNotDisjoint(m: seq<bool>, q: seq<bool>)
    requires |m| == |q|
    requires forall i :: 0 <= i < |m| && m[i] ==> !q[i]
    ensures AndNot(m, q) == m
  {
  }

  /** A mask that covers every anchor outside q, less q, is exactly `~q`. */
  lemma AndNotCovering(m: seq<bool>, q: seq<bool>)
    requires |m| == |q|
    requires forall i :: 0 <= i < |m| && !q[i] ==> m[i]
    ensures AndNot(m, q) == Not(q)
  {
  }

  /** `mask.sum()` over a whole [batch_size, num_anchors] mask. */
  function TotalCount(m: seq<seq<bool>>): (c: nat)
    ensures m == [] ==> c == 0
  {
    if m == [] then 0 else CountTrue(m[0]) + TotalCount(m[1..])
  }

  /** The whole mask counts zero exactly when every row does. */
  lemma {:induction false} TotalCountZero(m: seq<seq<bool>>)
    ensures TotalCount(m) == 0 <==> forall b :: 0 <= b < |m| ==> CountTrue(m[b]) == 0
  {
    if m != [] {
      TotalCountZero(m[1..]);
      assert forall b :: 1 <= b < |m| ==> m[1..][b - 1] == m[b];
    }
  }

  /** Two [batch_size, num_anchors] grids of the same shape. */
  predicate SameGrid<S, T>(x: seq<seq<S>>, y: seq<seq<T>>) {
    |x| == |y| && forall b :: 0 <= b < |x| ==> |x[b]| == |y[b]|
  }

  /** `p | q` over a whole grid. */
  function GridOr(p: seq<seq<bool>>, q: seq<seq<bool>>): (r: seq<seq<bool>>)
    requires SameGrid(p, q)
    ensures SameGrid(r, p)
    ensures forall b :: 0 <= b < |p| ==> r[b] == Or(p[b], q[b])
  {
    seq(|p|, b requires 0 <= b < |p| => Or(p[b], q[b]))
  }

  /** `p & ~q` over a whole grid. */
  function GridAndNot(p: seq<seq<bool>>, q: seq<seq<bool>>): (r: seq<seq<bool>>)
    requires SameGrid(p, q)
    ensures SameGrid(r, p)
    ensures forall b :: 0 <= b < |p| ==> r[b] == AndNot(p[b], q[b])
  {
    seq(|p|, b requires 0 <= b < |p| => AndNot(p[b], q[b]))
  }
}
