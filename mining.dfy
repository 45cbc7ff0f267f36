/** `SSDLoss._hard_negative_mining`: per batch row, rank the anchors by
    `label_loss * (positive - 1)` with a double argsort and mark an anchor
    negative when its rank is below `negative_ratio * (number of positives)`. */
module HardNegativeMining {
  import opened Sorting
  import opened Masks

  /** `label_loss * (positive.float() - 1)` on one row. The factor
      `positive.float() - 1` is 0.0 for a positive anchor and -1.0 for any other,
      and the product is written out for those two values, which keeps the
      arithmetic linear for the solver. Positives become 0 and every other anchor
      its negated loss, so an ascending sort lists the largest losses of
      non-positive anchors first. */
  function Effective(loss: seq<real>, positive: seq<bool>): (e: seq<real>)
    requires |loss| == |positive|
    ensures |e| == |loss|
    ensures forall i :: 0 <= i < |e| ==> e[i] == if positive[i] then 0.0 else -loss[i]
    ensures forall a, b :: 0 <= a < |e| && 0 <= b < |e| && !positive[a] && positive[b] && 0.0 <= loss[a] ==>
      e[a] <= e[b]
  {
    seq(|loss|, i requires 0 <= i < |loss| => if positive[i] then loss[i] * 0.0 else loss[i] * -1.0)
  }

  /** eff holds the values Effective(loss, positive) computes. The lemmas about
      rankings take the effective loss through this predicate. */
  predicate EffectiveLoss(eff: seq<real>, loss: seq<real>, positive: seq<bool>) {
    |eff| == |loss| == |positive| &&
    forall i :: 0 <= i < |eff| ==> eff[i] == if positive[i] then 0.0 else -loss[i]
  }

  /** `rank < c` on one row. */
  function Below(rank: seq<nat>, c: int): (m: seq<bool>)
    ensures |m| == |rank|
  {
    seq(|rank|, i requires 0 <= i < |rank| => rank[i] < c)
  }

  /** `negative_ratio * positive.sum(1)` for one row. */
  function NumNegative(ratio: nat, positive: seq<bool>): (k: nat)
    ensures k == 0 <==> ratio == 0 || forall i :: 0 <= i < |positive| ==> !positive[i]
    ensures 0 < ratio ==> CountTrue(positive) <= k
  {
    CountZero(positive);
    ratio * CountTrue(positive)
  }

  /** A larger ratio gives a cutoff no smaller. */
  lemma NumNegativeMonotone(r1: nat, r2: nat, positive: seq<bool>)
    requires r1 <= r2
    ensures NumNegative(r1, positive) <= NumNegative(r2, positive)
  {
    var p := CountTrue(positive);
    var d: nat := r2 - r1;
    assert r2 * p == r1 * p + d * p;
  }

  /** idx is a result `eff.sort(1)` may return and rank one `idx.sort(1)` may
      return; rank[a] is then the position of anchor a in the sorted row. */
  ghost predicate Ranks(eff: seq<real>, idx: seq<nat>, rank: seq<nat>) {
    SortsAscending(eff, idx) && SortsAscending(IndexKeys(idx), rank)
  }

  lemma CountBelowAppend(a: seq<nat>, b: seq<nat>, c: int)
    ensures CountTrue(Below(a + b, c)) == CountTrue(Below(a, c)) + CountTrue(Below(b, c))
  {
    assert Below(a + b, c) == Below(a, c) + Below(b, c);
    CountTrueAppend(Below(a, c), Below(b, c));
  }

  /** How many entries lie below a cutoff does not depend on their order. */
  lemma {:induction false} CountBelowPermutation(s: seq<nat>, t: seq<nat>, c: int)
    requires multiset(s) == multiset(t)
    ensures CountTrue(Below(s, c)) == CountTrue(Below(t, c))
    decreases |s|
  {
    if s == [] {
      assert |t| == |multiset(t)|;
    } else {
      var x := s[0];
      assert x in multiset(t);
      var i :| 0 <= i < |t| && t[i] == x;
      var rest := t[..i] + t[i + 1..];
      assert t == t[..i] + ([x] + t[i + 1..]);
      assert s == [x] + s[1..];
      assert multiset(s[1..]) == multiset(s) - multiset{x};
      assert multiset(rest) == multiset(t) - multiset{x};
      CountBelowPermutation(s[1..], rest, c);
      CountBelowAppend([x], s[1..], c);
      CountBelowAppend(t[..i], [x] + t[i + 1..], c);
      CountBelowAppend([x], t[i + 1..], c);
      CountBelowAppend(t[..i], t[i + 1..], c);
    }
  }

  lemma {:induction false} CountBelowRange(n: nat, c: nat)
    ensures CountTrue(Below(Range(n), c)) == Min(c, n)
  {
    if n > 0 {
      CountBelowRange(n - 1, c);
      assert Below(Range(n), c) == Below(Range(n - 1), c) + [n - 1 < c];
      CountTrueAppend(Below(Range(n - 1), c), [n - 1 < c]);
    }
  }

  /** The second argsort inverts the first: the rank of the anchor at sorted
      position j is j, and rank is itself a permutation of 0..n-1. */
  lemma RankInverse(eff: seq<real>, idx: seq<nat>, rank: seq<nat>)
    requires Ranks(eff, idx, rank)
    ensures |idx| == |eff| && |rank| == |eff|
    ensures IsPermutation(rank, |eff|)
    ensures InBounds(idx, |eff|) && InBounds(rank, |eff|) && Distinct(rank)
    ensures forall a :: 0 <= a < |eff| ==> idx[rank[a]] == a
    ensures forall j :: 0 <= j < |eff| ==> rank[idx[j]] == j
  {
    PermutationProperties(idx, |eff|);
    PermutationProperties(rank, |eff|);
    InverseOfSortedPermutation(idx, rank);
  }

  /** However torch orders ties in the first sort, the second sort has only one
      possible result. */
  lemma RankUnique(eff: seq<real>, idx: seq<nat>, r1: seq<nat>, r2: seq<nat>)
    requires Ranks(eff, idx, r1) && Ranks(eff, idx, r2)
    ensures r1 == r2
  {
    RankInverse(eff, idx, r1);
    RankInverse(eff, idx, r2);
    forall a | 0 <= a < |eff| ensures r1[a] == r2[a] {
      var j := r1[a];
      assert idx[j] == a;
    }
  }

  /** An anchor ranked before another has an effective loss no larger. */
  lemma RankOrder(eff: seq<real>, idx: seq<nat>, rank: seq<nat>)
    requires Ranks(eff, idx, rank)
    ensures |rank| == |eff| && InBounds(rank, |eff|) && Distinct(rank)
    ensures forall a, b :: 0 <= a < |eff| && 0 <= b < |eff| && rank[a] < rank[b] ==> eff[a] <= eff[b]
  {
    RankInverse(eff, idx, rank);
    forall a, b | 0 <= a < |eff| && 0 <= b < |eff| && rank[a] < rank[b]
      ensures eff[a] <= eff[b]
    {
      assert eff[idx[rank[a]]] <= eff[idx[rank[b]]];
    }
  }

  /** `rank < k` marks exactly min(k, n) anchors of the row. */
  lemma NegativeCount(eff: seq<real>, idx: seq<nat>, rank: seq<nat>, k: nat)
    requires Ranks(eff, idx, rank)
    ensures CountTrue(Below(rank, k)) == Min(k, |eff|)
  {
    CountBelowPermutation(rank, Range(|eff|), k);
    CountBelowRange(|eff|, k);
  }

  /** The marked anchors are the first min(k, n) anchors of the sorted row. */
  lemma SelectedAreSortedPrefix(eff: seq<real>, idx: seq<nat>, rank: seq<nat>, k: nat)
    requires Ranks(eff, idx, rank)
    ensures |idx| == |eff| && |rank| == |eff|
    ensures forall a :: 0 <= a < |eff| ==>
      (Below(rank, k)[a] <==> exists j :: 0 <= j < Min(k, |eff|) && idx[j] == a)
  {
    RankInverse(eff, idx, rank);
    forall a | 0 <= a < |eff|
      ensures Below(rank, k)[a] <==> exists j :: 0 <= j < Min(k, |eff|) && idx[j] == a
    {
      if Below(rank, k)[a] {
        assert idx[rank[a]] == a;
      }
    }
  }

  /** Hardest first: a marked anchor never has a larger effective loss than an
      unmarked one. */
  lemma HardestFirst(eff: seq<real>, idx: seq<nat>, rank: seq<nat>, k: nat)
    requires Ranks(eff, idx, rank)
    ensures |rank| == |eff|
    ensures forall a, b :: 0 <= a < |eff| && 0 <= b < |eff| && Below(rank, k)[a] && !Below(rank, k)[b] ==>
      eff[a] <= eff[b]
  {
    RankOrder(eff, idx, rank);
  }

  /** A cutoff k saturates at n: from there on every anchor is marked. */
  lemma SaturationMarksAll(eff: seq<real>, idx: seq<nat>, rank: seq<nat>, k: nat)
    requires Ranks(eff, idx, rank)
    requires |eff| <= k
    ensures |rank| == |eff| && forall a :: 0 <= a < |eff| ==> Below(rank, k)[a]
  {
    PermutationProperties(rank, |eff|);
  }

  /** Among non-positive anchors a strictly larger loss is never passed over for
      a smaller one. */
  lemma HarderNegativeFirst(loss: seq<real>, positive: seq<bool>, k: nat, eff: seq<real>, idx: seq<nat>, rank: seq<nat>)
    requires EffectiveLoss(eff, loss, positive)
    requires Ranks(eff, idx, rank)
    ensures |rank| == |loss|
    ensures forall a, b ::
      0 <= a < |loss| && 0 <= b < |loss| && !positive[a] && !positive[b] && loss[b] < loss[a] && Below(rank, k)[b]
      ==> Below(rank, k)[a]
  {
    HardestFirst(eff, idx, rank, k);
  }

  /** Distinct ranks that never put a larger value first put every strictly
      smaller value first. */
  lemma StrictlySmallerFirst(eff: seq<real>, rank: seq<nat>)
    requires |rank| == |eff| && Distinct(rank)
    requires forall a, b :: 0 <= a < |eff| && 0 <= b < |eff| && rank[a] < rank[b] ==> eff[a] <= eff[b]
    ensures forall a, b :: 0 <= a < |eff| && 0 <= b < |eff| && eff[a] < eff[b] ==> rank[a] < rank[b]
  {
    forall a, b | 0 <= a < |eff| && 0 <= b < |eff| && eff[a] < eff[b]
      ensures rank[a] < rank[b]
    {
      assert a < b ==> rank[a] != rank[b];
      assert b < a ==> rank[b] != rank[a];
    }
  }

  /** Every non-positive anchor with a positive loss sorts before every positive
      anchor (whose effective loss is 0). */
  lemma PositivesRankedLast(loss: seq<real>, positive: seq<bool>, eff: seq<real>, idx: seq<nat>, rank: seq<nat>)
    requires EffectiveLoss(eff, loss, positive)
    requires Ranks(eff, idx, rank)
    requires forall i :: 0 <= i < |loss| && !positive[i] ==> loss[i] > 0.0
    ensures |rank| == |loss|
    ensures forall a, b :: 0 <= a < |loss| && 0 <= b < |loss| && !positive[a] && positive[b] ==> rank[a] < rank[b]
  {
    RankOrder(eff, idx, rank);
    StrictlySmallerFirst(eff, rank);
    assert forall a, b :: 0 <= a < |loss| && 0 <= b < |loss| && !positive[a] && positive[b] ==> eff[a] < eff[b];
  }

  /** How many ranks lie below a cutoff depends only on the ranks being a
      permutation, so a set of anchors that all rank below (or all at or above)
      a cutoff is bounded by that cutoff. */
  lemma PositivesAtTop(rank: seq<nat>, positive: seq<bool>)
    requires IsPermutation(rank, |positive|)
    requires forall a, b :: 0 <= a < |positive| && 0 <= b < |positive| && !positive[a] && positive[b] ==>
      rank[a] < rank[b]
    ensures forall a :: 0 <= a < |positive| && positive[a] ==> |positive| - CountTrue(positive) <= rank[a]
  {
    var n := |positive|;
    PermutationProperties(rank, n);
    CountNot(positive);
    forall a | 0 <= a < n && positive[a]
      ensures n - CountTrue(positive) <= rank[a]
    {
      CountMonotone(Not(positive), Below(rank, rank[a]));
      CountBelowPermutation(rank, Range(n), rank[a]);
      CountBelowRange(n, rank[a]);
    }
  }

  lemma NonPositivesAtBottom(rank: seq<nat>, positive: seq<bool>)
    requires IsPermutation(rank, |positive|)
    requires forall a, b :: 0 <= a < |positive| && 0 <= b < |positive| && !positive[a] && positive[b] ==>
      rank[a] < rank[b]
    ensures forall b :: 0 <= b < |positive| && !positive[b] ==> rank[b] < |positive| - CountTrue(positive)
  {
    var n := |positive|;
    PermutationProperties(rank, n);
    CountNot(positive);
    forall b | 0 <= b < n && !positive[b]
      ensures rank[b] < n - CountTrue(positive)
    {
      CountMonotone(Below(rank, rank[b] + 1), Not(positive));
      CountBelowPermutation(rank, Range(n), rank[b] + 1);
      CountBelowRange(n, rank[b] + 1);
    }
  }

  /** With positive losses on non-positive anchors, the positives take the last
      CountTrue(positive) ranks and the other anchors the ranks before them. */
  lemma PositivesTakeLastRanks(loss: seq<real>, positive: seq<bool>, eff: seq<real>, idx: seq<nat>, rank: seq<nat>)
    requires EffectiveLoss(eff, loss, positive)
    requires Ranks(eff, idx, rank)
    requires forall i :: 0 <= i < |loss| && !positive[i] ==> loss[i] > 0.0
    ensures |rank| == |loss|
    ensures forall a :: 0 <= a < |loss| && positive[a] ==> |loss| - CountTrue(positive) <= rank[a]
    ensures forall b :: 0 <= b < |loss| && !positive[b] ==> rank[b] < |loss| - CountTrue(positive)
  {
    PositivesRankedLast(loss, positive, eff, idx, rank);
    assert IsPermutation(rank, |positive|);
    PositivesAtTop(rank, positive);
    NonPositivesAtBottom(rank, positive);
  }

  /** Unless the cutoff exceeds the number of non-positive anchors, no positive
      anchor is marked negative. */
  lemma DisjointUnlessSaturated(loss: seq<real>, positive: seq<bool>, k: nat, eff: seq<real>, idx: seq<nat>, rank: seq<nat>)
    requires EffectiveLoss(eff, loss, positive)
    requires Ranks(eff, idx, rank)
    requires forall i :: 0 <= i < |loss| && !positive[i] ==> loss[i] > 0.0
    requires k <= |loss| - CountTrue(positive)
    ensures |rank| == |loss|
    ensures forall i :: 0 <= i < |loss| && Below(rank, k)[i] ==> !positive[i]
  {
    PositivesTakeLastRanks(loss, positive, eff, idx, rank);
  }

  /** When the positives hold the last CountTrue(positive) ranks of a
      permutation, a cutoff up to n - CountTrue(positive) marks k anchors, none
      of them positive. */
  lemma MarkedBeforeSaturation(rank: seq<nat>, positive: seq<bool>, k: nat)
    requires IsPermutation(rank, |positive|)
    requires forall a :: 0 <= a < |positive| && positive[a] ==> |positive| - CountTrue(positive) <= rank[a]
    requires k <= |positive| - CountTrue(positive)
    ensures CountTrue(AndNot(Below(rank, k), positive)) == k
  {
    AndNotDisjoint(Below(rank, k), positive);
    CountBelowPermutation(rank, Range(|positive|), k);
    CountBelowRange(|positive|, k);
  }

  /** When the other anchors hold the first n - CountTrue(positive) ranks, a
      larger cutoff marks all of them. */
  lemma MarkedAfterSaturation(rank: seq<nat>, positive: seq<bool>, k: nat)
    requires |rank| == |positive|
    requires forall b :: 0 <= b < |positive| && !positive[b] ==> rank[b] < |positive| - CountTrue(positive)
    requires |positive| - CountTrue(positive) < k
    ensures CountTrue(AndNot(Below(rank, k), positive)) == |positive| - CountTrue(positive)
  {
    AndNotCovering(Below(rank, k), positive);
    CountNot(positive);
  }

  lemma MarkedOutside(rank: seq<nat>, positive: seq<bool>, k: nat)
    requires IsPermutation(rank, |positive|)
    requires forall a :: 0 <= a < |positive| && positive[a] ==> |positive| - CountTrue(positive) <= rank[a]
    requires forall b :: 0 <= b < |positive| && !positive[b] ==> rank[b] < |positive| - CountTrue(positive)
    ensures CountTrue(AndNot(Below(rank, k), positive)) == Min(k, |positive| - CountTrue(positive))
  {
    if k <= |positive| - CountTrue(positive) {
      MarkedBeforeSaturation(rank, positive, k);
    } else {
      MarkedAfterSaturation(rank, positive, k);
    }
  }

  /** The non-positive anchors marked negative number exactly
      min(k, n - CountTrue(positive)), while the mask itself counts min(k, n): past
      saturation the extra marks fall on positives. */
  lemma MinedNegativeCount(loss: seq<real>, positive: seq<bool>, k: nat, eff: seq<real>, idx: seq<nat>, rank: seq<nat>)
    requires EffectiveLoss(eff, loss, positive)
    requires Ranks(eff, idx, rank)
    requires forall i :: 0 <= i < |loss| && !positive[i] ==> loss[i] > 0.0
    ensures |rank| == |loss|
    ensures CountTrue(AndNot(Below(rank, k), positive)) == Min(k, |loss| - CountTrue(positive))
  {
    PositivesTakeLastRanks(loss, positive, eff, idx, rank);
    RankInverse(eff, idx, rank);
    MarkedOutside(rank, positive, k);
  }

  /** `idx.sort(1)[1]` after `_, idx = label_loss.sort(1)` on one row, with the
      stable argsort used for both sorts: the rank of every anchor. */
  function RowRank(loss: seq<real>, positive: seq<bool>): (rank: seq<nat>)
    requires |loss| == |positive|
    ensures |rank| == |loss|
  {
    Argsort(IndexKeys(Argsort(Effective(loss, positive))))
  }

  /** The row's rank is a ranking of its effective losses, so every property
      proved above for rankings holds of it. */
  lemma RowRankRanks(loss: seq<real>, positive: seq<bool>)
    requires |loss| == |positive|
    ensures exists eff, idx :: EffectiveLoss(eff, loss, positive) && Ranks(eff, idx, RowRank(loss, positive))
  {
    var eff := Effective(loss, positive);
    var idx := Argsort(eff);
    assert EffectiveLoss(eff, loss, positive) && Ranks(eff, idx, RowRank(loss, positive));
  }

  lemma RowRankCount(loss: seq<real>, positive: seq<bool>, k: nat)
    requires |loss| == |positive|
    ensures CountTrue(Below(RowRank(loss, positive), k)) == Min(k, |loss|)
  {
    RowRankRanks(loss, positive);
    var eff, idx :| EffectiveLoss(eff, loss, positive) && Ranks(eff, idx, RowRank(loss, positive));
    NegativeCount(eff, idx, RowRank(loss, positive), k);
  }

  /** `_hard_negative_mining` on one batch row. It marks
      min(negative_ratio * positive.sum(), num_anchors) anchors, and none in a
      row without positives. */
  function MineRow(loss: seq<real>, positive: seq<bool>, ratio: nat): (negative: seq<bool>)
    requires |loss| == |positive|
    ensures |negative| == |loss|
    ensures CountTrue(negative) == Min(NumNegative(ratio, positive), |loss|)
    ensures (forall a :: 0 <= a < |positive| ==> !positive[a]) ==> forall a :: 0 <= a < |negative| ==> !negative[a]
  {
    var k := NumNegative(ratio, positive);
    RowRankCount(loss, positive, k);
    CountZero(Below(RowRank(loss, positive), k));
    Below(RowRank(loss, positive), k)
  }

  /** The row mined is `rank < negative_ratio * positive.sum()` for a ranking of
      the row's effective losses. */
  lemma MineRowRanks(loss: seq<real>, positive: seq<bool>, ratio: nat)
    requires |loss| == |positive|
    ensures exists eff, idx, rank ::
      EffectiveLoss(eff, loss, positive) && Ranks(eff, idx, rank) &&
      MineRow(loss, positive, ratio) == Below(rank, NumNegative(ratio, positive))
  {
    RowRankRanks(loss, positive);
    var eff, idx :| EffectiveLoss(eff, loss, positive) && Ranks(eff, idx, RowRank(loss, positive));
    assert MineRow(loss, positive, ratio) == Below(RowRank(loss, positive), NumNegative(ratio, positive));
  }

  /** Hardest first: no anchor left out has a smaller effective loss than one
      that is marked. */
  lemma MineRowHardestFirst(loss: seq<real>, positive: seq<bool>, ratio: nat)
    requires |loss| == |positive|
    ensures forall a, b ::
      0 <= a < |loss| && 0 <= b < |loss| && MineRow(loss, positive, ratio)[a] && !MineRow(loss, positive, ratio)[b]
      ==> Effective(loss, positive)[a] <= Effective(loss, positive)[b]
  {
    MineRowRanks(loss, positive, ratio);
    var eff, idx, rank :| EffectiveLoss(eff, loss, positive) && Ranks(eff, idx, rank) &&
      MineRow(loss, positive, ratio) == Below(rank, NumNegative(ratio, positive));
    HardestFirst(eff, idx, rank, NumNegative(ratio, positive));
  }

  /** When every non-positive anchor has a positive loss, the non-positive
      anchors marked number min(negative_ratio * positive.sum(), n - positive.sum()). */
  lemma MineRowNonPositiveCount(loss: seq<real>, positive: seq<bool>, ratio: nat)
    requires |loss| == |positive|
    requires forall i :: 0 <= i < |loss| && !positive[i] ==> loss[i] > 0.0
    ensures CountTrue(AndNot(MineRow(loss, positive, ratio), positive)) ==
      Min(NumNegative(ratio, positive), |loss| - CountTrue(positive))
  {
    MineRowRanks(loss, positive, ratio);
    var eff, idx, rank :| EffectiveLoss(eff, loss, positive) && Ranks(eff, idx, rank) &&
      MineRow(loss, positive, ratio) == Below(rank, NumNegative(ratio, positive));
    MinedNegativeCount(loss, positive, NumNegative(ratio, positive), eff, idx, rank);
  }

  /** Below saturation, and with positive losses on the other anchors, no
      positive anchor is marked negative. */
  lemma MineRowDisjoint(loss: seq<real>, positive: seq<bool>, ratio: nat)
    requires |loss| == |positive|
    requires forall i :: 0 <= i < |loss| && !positive[i] ==> loss[i] > 0.0
    requires NumNegative(ratio, positive) <= |loss| - CountTrue(positive)
    ensures forall i :: 0 <= i < |loss| && MineRow(loss, positive, ratio)[i] ==> !positive[i]
  {
    MineRowRanks(loss, positive, ratio);
    var eff, idx, rank :| EffectiveLoss(eff, loss, positive) && Ranks(eff, idx, rank) &&
      MineRow(loss, positive, ratio) == Below(rank, NumNegative(ratio, positive));
    DisjointUnlessSaturated(loss, positive, NumNegative(ratio, positive), eff, idx, rank);
  }

  /** Mining with a larger ratio marks a superset of the anchors. */
  lemma RatioMonotone(loss: seq<real>, positive: seq<bool>, r1: nat, r2: nat)
    requires |loss| == |positive|
    requires r1 <= r2
    ensures forall a :: 0 <= a < |loss| && MineRow(loss, positive, r1)[a] ==> MineRow(loss, positive, r2)[a]
  {
    var rank := RowRank(loss, positive);
    NumNegativeMonotone(r1, r2, positive);
    assert MineRow(loss, positive, r1) == Below(rank, NumNegative(r1, positive));
    assert MineRow(loss, positive, r2) == Below(rank, NumNegative(r2, positive));
  }

  /** `_hard_negative_mining(label_loss, positive)` over the whole batch: every
      row is mined on its own. */
  function Mine(loss: seq<seq<real>>, positive: seq<seq<bool>>, ratio: nat): (negative: seq<seq<bool>>)
    requires SameGrid(loss, positive)
    ensures SameGrid(loss, negative)
    ensures forall b :: 0 <= b < |loss| ==> negative[b] == MineRow(loss[b], positive[b], ratio)
    ensures forall b :: 0 <= b < |loss| ==>
      CountTrue(negative[b]) == Min(ratio * CountTrue(positive[b]), |loss[b]|)
  {
    seq(|loss|, b requires 0 <= b < |loss| => MineRow(loss[b], positive[b], ratio))
  }

  /** A row without positives marks nothing, whatever its losses, so two
      batches that differ only in such a row are mined alike. */
  lemma MineIgnoresRow(loss: seq<seq<real>>, other: seq<seq<real>>, positive: seq<seq<bool>>, ratio: nat, row: nat)
    requires SameGrid(loss, positive) && SameGrid(other, positive)
    requires row < |positive| && CountTrue(positive[row]) == 0
    requires forall b :: 0 <= b < |positive| && b != row ==> loss[b] == other[b]
    ensures Mine(loss, positive, ratio) == Mine(other, positive, ratio)
    ensures forall a :: 0 <= a < |positive[row]| ==> !Mine(loss, positive, ratio)[row][a]
  {
    var mined := Mine(loss, positive, ratio);
    var minedOther := Mine(other, positive, ratio);
    CountZero(positive[row]);
    var here := MineRow(loss[row], positive[row], ratio);
    var there := MineRow(other[row], positive[row], ratio);
    assert |here| == |there|;
    assert forall a :: 0 <= a < |here| ==> !here[a] && !there[a];
    assert here == there;
    forall b | 0 <= b < |positive|
      ensures mined[b] == minedOther[b]
    {
      if b != row {
        assert loss[b] == other[b];
      }
    }
  }

  /** The number of marked anchors in a row of five, anchor by anchor. */
  lemma CountFive(m: seq<bool>)
    requires |m| == 5
    ensures CountTrue(m) == CountTrue([m[0]]) + CountTrue([m[1]]) + CountTrue([m[2]]) + CountTrue([m[3]]) + CountTrue([m[4]])
  {
    assert m == [m[0]] + ([m[1]] + ([m[2]] + ([m[3]] + [m[4]])));
    CountTrueAppend([m[3]], [m[4]]);
    CountTrueAppend([m[2]], [m[3]] + [m[4]]);
    CountTrueAppend([m[1]], [m[2]] + ([m[3]] + [m[4]]));
    CountTrueAppend([m[0]], [m[1]] + ([m[2]] + ([m[3]] + [m[4]])));
  }

  /** Two marks, none on anchors 0 and 4, and a harder non-positive anchor never
      passed over: the marks fall on anchors 2 and 3. */
  lemma HardestTwoOfFive(negative: seq<bool>)
    requires |negative| == 5 && CountTrue(negative) == 2
    requires !negative[0] && !negative[4]
    requires negative[1] ==> negative[2] && negative[3]
    requires negative[3] ==> negative[2]
    ensures negative == [false, false, true, true, false]
  {
    CountFive(negative);
    assert negative == [negative[0], negative[1], negative[2], negative[3], negative[4]];
  }

  /** The hardest-two scenario for any ranking of its effective losses. */
  lemma HardestTwoForRanking(loss: seq<real>, positive: seq<bool>, eff: seq<real>, idx: seq<nat>, rank: seq<nat>)
    requires loss == [0.3, 0.1, 0.9, 0.5, 0.2]
    requires positive == [true, false, false, false, true]
    requires EffectiveLoss(eff, loss, positive) && Ranks(eff, idx, rank)
    ensures Below(rank, 2) == [false, false, true, true, false]
  {
    CountFive(positive);
    NegativeCount(eff, idx, rank, 2);
    DisjointUnlessSaturated(loss, positive, 2, eff, idx, rank);
    HarderNegativeFirst(loss, positive, 2, eff, idx, rank);
    HardestTwoOfFive(Below(rank, 2));
  }

  lemma TwoPositives()
    ensures NumNegative(1, [true, false, false, false, true]) == 2
  {
    CountFive([true, false, false, false, true]);
  }

  /** Positives at anchors 0 and 4, ratio 1, losses 0.1, 0.9 and 0.5 at the
      other anchors: the two hardest, anchors 2 and 3, are chosen. */
  lemma ScenarioHardestTwo()
    ensures MineRow([0.3, 0.1, 0.9, 0.5, 0.2], [true, false, false, false, true], 1)
      == [false, false, true, true, false]
  {
    var loss := [0.3, 0.1, 0.9, 0.5, 0.2];
    var positive := [true, false, false, false, true];
    TwoPositives();
    MineRowRanks(loss, positive, 1);
    var eff, idx, rank :| EffectiveLoss(eff, loss, positive) && Ranks(eff, idx, rank) &&
      MineRow(loss, positive, 1) == Below(rank, 2);
    HardestTwoForRanking(loss, positive, eff, idx, rank);
  }

  lemma AllFive(m: seq<bool>)
    requires |m| == 5 && CountTrue(m) == 5
    ensures m == [true, true, true, true, true]
  {
    CountFull(m);
  }

  lemma OneNonPositive()
    ensures CountTrue(AndNot([true, true, true, true, true], [true, true, false, true, true])) == 1
  {
    assert AndNot([true, true, true, true, true], [true, true, false, true, true]) == [false, false, true, false, false];
    CountFive([false, false, true, false, false]);
  }

  /** Four positives out of five, ratio 3: the cutoff 12 marks every anchor,
      positives included, and one non-positive anchor is among them. */
  lemma ScenarioSaturation(loss: seq<real>)
    requires |loss| == 5
    ensures MineRow(loss, [true, true, false, true, true], 3) == [true, true, true, true, true]
    ensures CountTrue(AndNot(MineRow(loss, [true, true, false, true, true], 3), [true, true, false, true, true])) == 1
  {
    var positive := [true, true, false, true, true];
    assert CountTrue(positive) == 4;
    var negative := MineRow(loss, positive, 3);
    AllFive(negative);
    OneNonPositive();
  }

  /** One mark, none on anchor 0, and a harder non-positive anchor never passed
      over: the mark falls on anchor 2. */
  lemma HardestOneOfFive(negative: seq<bool>)
    requires |negative| == 5 && CountTrue(negative) == 1
    requires !negative[0]
    requires negative[1] || negative[3] || negative[4] ==> negative[2]
    ensures negative[2]
  {
    CountFive(negative);
  }

  /** With a positive at anchor 0 only, ratio 1 and losses 0.1, 0.9, 0.5 and
      0.2 at anchors 1 to 4, anchor 2 is marked, for any ranking of the
      effective losses. */
  lemma HardestOneForRanking(eff: seq<real>, idx: seq<nat>, rank: seq<nat>)
    requires EffectiveLoss(eff, [0.3, 0.1, 0.9, 0.5, 0.2], [true, false, false, false, false])
    requires Ranks(eff, idx, rank)
    ensures Below(rank, 1)[2]
  {
    var loss := [0.3, 0.1, 0.9, 0.5, 0.2];
    var positive := [true, false, false, false, false];
    CountFive(positive);
    NegativeCount(eff, idx, rank, 1);
    DisjointUnlessSaturated(loss, positive, 1, eff, idx, rank);
    HarderNegativeFirst(loss, positive, 1, eff, idx, rank);
    HardestOneOfFive(Below(rank, 1));
  }

  lemma OnePositiveMarksHardest()
    ensures MineRow([0.3, 0.1, 0.9, 0.5, 0.2], [true, false, false, false, false], 1)[2]
  {
    var loss := [0.3, 0.1, 0.9, 0.5, 0.2];
    var positive := [true, false, false, false, false];
    CountFive(positive);
    assert NumNegative(1, positive) == 1;
    MineRowRanks(loss, positive, 1);
    var eff, idx, rank :| EffectiveLoss(eff, loss, positive) && Ranks(eff, idx, rank) &&
      MineRow(loss, positive, 1) == Below(rank, 1);
    HardestOneForRanking(eff, idx, rank);
  }

  /** With positives at anchors 0 and 2 the cutoff 2 fits among the three
      non-positive anchors, so anchor 2 is not marked. */
  lemma TwoPositivesSkipAnchor()
    ensures !MineRow([0.3, 0.1, 0.9, 0.5, 0.2], [true, false, true, false, false], 1)[2]
  {
    var positive := [true, false, true, false, false];
    CountFive(positive);
    MineRowDisjoint([0.3, 0.1, 0.9, 0.5, 0.2], positive, 1);
  }

  /** Turning anchor 2 of the row above into a positive doubles the cutoff,
      yet anchor 2 leaves the negatives: the mask is not monotone in the
      positives, although `positive | negative` still covers anchor 2. */
  lemma PositiveCountNotMonotone()
    ensures MineRow([0.3, 0.1, 0.9, 0.5, 0.2], [true, false, false, false, false], 1)[2]
    ensures !MineRow([0.3, 0.1, 0.9, 0.5, 0.2], [true, false, true, false, false], 1)[2]
  {
    OnePositiveMarksHardest();
    TwoPositivesSkipAnchor();
  }
}
