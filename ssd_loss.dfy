/** `SSDLoss.forward`: the loss of a batch of anchors, returned as a record of
    the total, the localisation term and the classification term.

    Shapes: bbox_input and bbox_target are [batch_size][num_anchors][4],
    label_input holds per-anchor log-probabilities [batch_size][num_anchors][num_classes]
    and label_target integer labels [batch_size][num_anchors]. */
module SsdLoss {
  import opened Masks
  import opened MaskedSums
  import opened HardNegativeMining
  import opened SmoothL1Loss

  /** The two scalars `SSDLoss.__init__` stores. */
  datatype Config = Config(alpha: real, negativeRatio: nat)

  /** `SSDLoss()` with its default arguments. */
  const Default: Config := Config(1.0, 3)

  /** Offsets per anchor box. */
  const BoxSize: nat := 4

  /** The target value `F.nll_loss` skips by default. */
  const IgnoreIndex: int := -100

  /** The dictionary `forward` returns. */
  datatype Losses = Losses(mainLoss: real, bboxLoss: real, labelLoss: real)

  datatype LossError =
    | LabelOutOfRange    // `F.nll_loss` rejects a target outside the classes
    | NoPositiveAnchors  // the batch has no positive anchor to divide by

  datatype Result<T> = Ok(value: T) | Err(error: LossError)

  /** boxes is [batch_size][num_anchors][4] over the anchors of labels. */
  predicate BoxesShaped(boxes: seq<seq<seq<real>>>, labels: seq<seq<int>>) {
    SameGrid(boxes, labels) &&
    forall b, a :: 0 <= b < |boxes| && 0 <= a < |boxes[b]| ==> |boxes[b][a]| == BoxSize
  }

  predicate WellShaped(bboxIn: seq<seq<seq<real>>>, bboxTgt: seq<seq<seq<real>>>,
                       scores: seq<seq<seq<real>>>, labels: seq<seq<int>>) {
    BoxesShaped(bboxIn, labels) && BoxesShaped(bboxTgt, labels) && SameGrid(scores, labels)
  }

  /** `label_target > 0`: the anchors matched to an object. */
  function PositiveMask(labels: seq<seq<int>>): (positive: seq<seq<bool>>)
    ensures SameGrid(positive, labels)
    ensures forall b, a :: 0 <= b < |labels| && 0 <= a < |labels[b]| ==>
      (positive[b][a] <==> labels[b][a] > 0)
  {
    seq(|labels|, b requires 0 <= b < |labels| =>
      seq(|labels[b]|, a requires 0 <= a < |labels[b]| => labels[b][a] > 0))
  }

  /** `positive.sum().item()` */
  function NumPositive(labels: seq<seq<int>>): (c: nat)
    ensures c == 0 <==> forall b, a :: 0 <= b < |labels| && 0 <= a < |labels[b]| ==> labels[b][a] <= 0
  {
    PositiveMaskEmpty(labels);
    TotalCount(PositiveMask(labels))
  }

  /** The batch has no positive anchor exactly when no label is above 0. */
  lemma PositiveMaskEmpty(labels: seq<seq<int>>)
    ensures TotalCount(PositiveMask(labels)) == 0 <==>
      forall b, a :: 0 <= b < |labels| && 0 <= a < |labels[b]| ==> labels[b][a] <= 0
  {
    var positive := PositiveMask(labels);
    TotalCountZero(positive);
    forall b | 0 <= b < |labels| {
      CountZero(positive[b]);
    }
  }

  /** The per-anchor box losses: entry [b][a] is the smooth-L1 sum over the
      offsets of anchor a in row b. */
  function BoxLosses(bboxIn: seq<seq<seq<real>>>, bboxTgt: seq<seq<seq<real>>>, labels: seq<seq<int>>): (l: seq<seq<real>>)
    requires BoxesShaped(bboxIn, labels) && BoxesShaped(bboxTgt, labels)
    ensures SameGrid(l, labels) && Nonnegative(l)
    ensures forall b, a :: 0 <= b < |labels| && 0 <= a < |labels[b]| ==>
      (l[b][a] == 0.0 <==> bboxIn[b][a] == bboxTgt[b][a])
  {
    seq(|labels|, b requires 0 <= b < |labels| =>
      seq(|labels[b]|, a requires 0 <= a < |labels[b]| => BoxLoss(bboxIn[b][a], bboxTgt[b][a])))
  }

  /** A target `F.nll_loss` accepts for one anchor. */
  predicate ValidLabel(scores: seq<real>, target: int) {
    target == IgnoreIndex || 0 <= target < |scores|
  }

  predicate ValidLabels(scores: seq<seq<seq<real>>>, labels: seq<seq<int>>)
    requires SameGrid(scores, labels)
  {
    forall b, a :: 0 <= b < |labels| && 0 <= a < |labels[b]| ==> ValidLabel(scores[b][a], labels[b][a])
  }

  /** Every score is a log-probability. */
  predicate LogProbabilities(scores: seq<seq<seq<real>>>) {
    forall b, a, c :: 0 <= b < |scores| && 0 <= a < |scores[b]| && 0 <= c < |scores[b][a]| ==>
      scores[b][a][c] <= 0.0
  }

  /** `F.nll_loss(..., reduce=False)` for one anchor: the negated score of the
      target class, and 0 for an ignored anchor. */
  function Nll(scores: seq<real>, target: int): (r: real)
    requires ValidLabel(scores, target)
    ensures target == IgnoreIndex ==> r == 0.0
    ensures (forall c :: 0 <= c < |scores| ==> scores[c] <= 0.0) ==> 0.0 <= r
  {
    if target == IgnoreIndex then 0.0 else -scores[target]
  }

  function NllLosses(scores: seq<seq<seq<real>>>, labels: seq<seq<int>>): (l: seq<seq<real>>)
    requires SameGrid(scores, labels) && ValidLabels(scores, labels)
    ensures SameGrid(l, labels)
    ensures LogProbabilities(scores) ==> Nonnegative(l)
    ensures forall b, a :: 0 <= b < |labels| && 0 <= a < |labels[b]| ==> l[b][a] == Nll(scores[b][a], labels[b][a])
  {
    seq(|labels|, b requires 0 <= b < |labels| =>
      seq(|labels[b]|, a requires 0 <= a < |labels[b]| => Nll(scores[b][a], labels[b][a])))
  }

  /** The negatives `_hard_negative_mining` picks for the batch. */
  function Negatives(cfg: Config, scores: seq<seq<seq<real>>>, labels: seq<seq<int>>): (negative: seq<seq<bool>>)
    requires SameGrid(scores, labels) && ValidLabels(scores, labels)
    ensures SameGrid(negative, labels)
    ensures forall b :: 0 <= b < |labels| ==>
      CountTrue(negative[b]) == Min(cfg.negativeRatio * CountTrue(PositiveMask(labels)[b]), |labels[b]|)
  {
    Mine(NllLosses(scores, labels), PositiveMask(labels), cfg.negativeRatio)
  }

  // Facts about real quotients, stated one at a time so that the lemmas
  // below reason about them linearly.

  lemma QuotientZero(s: real, n: real)
    requires 0.0 < n
    ensures s / n == 0.0 <==> s == 0.0
  {
  }

  lemma QuotientMonotone(s: real, t: real, n: real)
    requires s <= t && 0.0 < n
    ensures s / n <= t / n
  {
  }

  /** A summed loss averaged over the positive count. */
  function Mean(total: real, count: nat): real
    requires 0 < count
  {
    total / count as real
  }

  /** The dictionary `forward` builds from the summed box loss, the summed
      classification loss and the positive count. */
  function Normalised(alpha: real, boxSum: real, labelSum: real, count: nat): (l: Losses)
    requires 0 < count
    ensures l.mainLoss == l.bboxLoss + alpha * l.labelLoss
    ensures 0.0 <= boxSum && 0.0 <= labelSum ==> 0.0 <= l.bboxLoss && 0.0 <= l.labelLoss
    ensures 0.0 <= alpha && 0.0 <= boxSum && 0.0 <= labelSum ==> 0.0 <= l.mainLoss
  {
    var bbox := Mean(boxSum, count);
    var labelLoss := Mean(labelSum, count);
    Losses(bbox + alpha * labelLoss, bbox, labelLoss)
  }

  /** `F.smooth_l1_loss(bbox_input[mask], bbox_target[mask], size_average=False)`:
      the box losses summed over the positive anchors. */
  function BoxSum(bboxIn: seq<seq<seq<real>>>, bboxTgt: seq<seq<seq<real>>>, labels: seq<seq<int>>): (s: real)
    requires BoxesShaped(bboxIn, labels) && BoxesShaped(bboxTgt, labels)
    ensures 0.0 <= s
    ensures s == 0.0 <==>
      forall b, a :: 0 <= b < |labels| && 0 <= a < |labels[b]| && labels[b][a] > 0 ==> bboxIn[b][a] == bboxTgt[b][a]
  {
    var boxes := BoxLosses(bboxIn, bboxTgt, labels);
    GridMaskedSumNonnegative(boxes, PositiveMask(labels));
    GridMaskedSum(boxes, PositiveMask(labels))
  }

  /** `label_loss[positive | negative].sum()`: the NLL summed over the positives
      and the mined negatives. */
  function LabelSum(cfg: Config, scores: seq<seq<seq<real>>>, labels: seq<seq<int>>): (s: real)
    requires SameGrid(scores, labels) && ValidLabels(scores, labels)
    ensures LogProbabilities(scores) ==> 0.0 <= s
  {
    var nll := NllLosses(scores, labels);
    var selected := GridOr(PositiveMask(labels), Negatives(cfg, scores, labels));
    assert LogProbabilities(scores) ==> 0.0 <= GridMaskedSum(nll, selected) by {
      if LogProbabilities(scores) {
        GridMaskedSumNonnegative(nll, selected);
      }
    }
    GridMaskedSum(nll, selected)
  }

  /** `forward(bbox_input, bbox_target, label_input, label_target)`. */
  function Forward(cfg: Config, bboxIn: seq<seq<seq<real>>>, bboxTgt: seq<seq<seq<real>>>,
                   scores: seq<seq<seq<real>>>, labels: seq<seq<int>>): (r: Result<Losses>)
    requires WellShaped(bboxIn, bboxTgt, scores, labels)
    ensures (r.Err? && r.error == LabelOutOfRange) <==> !ValidLabels(scores, labels)
    ensures (r.Err? && r.error == NoPositiveAnchors) <==> ValidLabels(scores, labels) && NumPositive(labels) == 0
  {
    if !ValidLabels(scores, labels) then Err(LabelOutOfRange)
    else if NumPositive(labels) == 0 then Err(NoPositiveAnchors)
    else
      Ok(Normalised(cfg.alpha, BoxSum(bboxIn, bboxTgt, labels), LabelSum(cfg, scores, labels), NumPositive(labels)))
  }

  /** With a non-negative alpha and log-probability scores, every loss
      `forward` returns is non-negative. */
  lemma ForwardNonnegative(cfg: Config, bboxIn: seq<seq<seq<real>>>, bboxTgt: seq<seq<seq<real>>>,
                           scores: seq<seq<seq<real>>>, labels: seq<seq<int>>)
    requires WellShaped(bboxIn, bboxTgt, scores, labels)
    requires 0.0 <= cfg.alpha && LogProbabilities(scores)
    ensures var r := Forward(cfg, bboxIn, bboxTgt, scores, labels);
      r.Ok? ==> 0.0 <= r.value.bboxLoss && 0.0 <= r.value.labelLoss && 0.0 <= r.value.mainLoss
  {
    if ValidLabels(scores, labels) && NumPositive(labels) > 0 {
      var boxSum := BoxSum(bboxIn, bboxTgt, labels);
      var labelSum := LabelSum(cfg, scores, labels);
      assert Forward(cfg, bboxIn, bboxTgt, scores, labels) == Ok(Normalised(cfg.alpha, boxSum, labelSum, NumPositive(labels)));
    }
  }

  /** The localisation term is zero exactly when every positive anchor's box
      is predicted exactly. */
  lemma BoxLossZero(cfg: Config, bboxIn: seq<seq<seq<real>>>, bboxTgt: seq<seq<seq<real>>>,
                    scores: seq<seq<seq<real>>>, labels: seq<seq<int>>)
    requires WellShaped(bboxIn, bboxTgt, scores, labels)
    ensures var r := Forward(cfg, bboxIn, bboxTgt, scores, labels);
      r.Ok? ==> (r.value.bboxLoss == 0.0 <==>
        forall b, a :: 0 <= b < |labels| && 0 <= a < |labels[b]| && labels[b][a] > 0 ==> bboxIn[b][a] == bboxTgt[b][a])
  {
    if ValidLabels(scores, labels) && NumPositive(labels) > 0 {
      var boxSum := BoxSum(bboxIn, bboxTgt, labels);
      assert Forward(cfg, bboxIn, bboxTgt, scores, labels).value.bboxLoss == Mean(boxSum, NumPositive(labels));
      QuotientZero(boxSum, NumPositive(labels) as real);
    }
  }

  /** Boxes of anchors that are not positive never reach the result: two
      batches whose boxes agree at every positive anchor give the same losses. */
  lemma BoxesOnlyAtPositives(cfg: Config, bboxIn: seq<seq<seq<real>>>, bboxTgt: seq<seq<seq<real>>>,
                             otherIn: seq<seq<seq<real>>>, otherTgt: seq<seq<seq<real>>>,
                             scores: seq<seq<seq<real>>>, labels: seq<seq<int>>)
    requires WellShaped(bboxIn, bboxTgt, scores, labels) && WellShaped(otherIn, otherTgt, scores, labels)
    requires forall b, a :: 0 <= b < |labels| && 0 <= a < |labels[b]| && labels[b][a] > 0 ==>
      bboxIn[b][a] == otherIn[b][a] && bboxTgt[b][a] == otherTgt[b][a]
    ensures Forward(cfg, bboxIn, bboxTgt, scores, labels) == Forward(cfg, otherIn, otherTgt, scores, labels)
  {
    GridMaskedSumLocal(BoxLosses(bboxIn, bboxTgt, labels), BoxLosses(otherIn, otherTgt, labels), PositiveMask(labels));
  }

  /** The classification term averages, over the positive count, the NLL of
      the positives and of the mined negatives that are not positive, each
      anchor once. */
  lemma LabelLossSplits(cfg: Config, bboxIn: seq<seq<seq<real>>>, bboxTgt: seq<seq<seq<real>>>,
                        scores: seq<seq<seq<real>>>, labels: seq<seq<int>>)
    requires WellShaped(bboxIn, bboxTgt, scores, labels)
    requires ValidLabels(scores, labels)
    ensures var r := Forward(cfg, bboxIn, bboxTgt, scores, labels);
      var nll := NllLosses(scores, labels);
      var positive := PositiveMask(labels);
      r.Ok? ==>
        r.value.labelLoss ==
        Mean(GridMaskedSum(nll, positive) + GridMaskedSum(nll, GridAndNot(Negatives(cfg, scores, labels), positive)),
             NumPositive(labels))
  {
    var positive := PositiveMask(labels);
    var nll := NllLosses(scores, labels);
    var negative := Negatives(cfg, scores, labels);
    GridMaskedSumOr(nll, positive, negative);
    var total := GridMaskedSum(nll, positive) + GridMaskedSum(nll, GridAndNot(negative, positive));
    assert GridMaskedSum(nll, GridOr(positive, negative)) == total;
  }

  /** The mined negatives do not depend on the scores of a row without
      positives. */
  lemma NegativesIgnoreRow(cfg: Config, scores: seq<seq<seq<real>>>, other: seq<seq<seq<real>>>,
                           labels: seq<seq<int>>, row: nat)
    requires SameGrid(scores, labels) && SameGrid(other, labels)
    requires ValidLabels(scores, labels) && ValidLabels(other, labels)
    requires row < |labels| && forall a :: 0 <= a < |labels[row]| ==> labels[row][a] <= 0
    requires forall b :: 0 <= b < |labels| && b != row ==> scores[b] == other[b]
    ensures Negatives(cfg, scores, labels) == Negatives(cfg, other, labels)
    ensures forall a :: 0 <= a < |labels[row]| ==> !Negatives(cfg, scores, labels)[row][a]
    ensures forall a :: 0 <= a < |labels[row]| ==> !GridOr(PositiveMask(labels), Negatives(cfg, scores, labels))[row][a]
    ensures forall b :: 0 <= b < |labels| && b != row ==> NllLosses(scores, labels)[b] == NllLosses(other, labels)[b]
  {
    var positive := PositiveMask(labels);
    var nll := NllLosses(scores, labels);
    var nllOther := NllLosses(other, labels);
    CountZero(positive[row]);
    forall b | 0 <= b < |labels| && b != row
      ensures nll[b] == nllOther[b]
    {
    }
    MineIgnoresRow(nll, nllOther, positive, cfg.negativeRatio, row);
  }

  /** The classification sum does not depend on the scores of a row without
      positives. */
  lemma SelectionIgnoresRow(cfg: Config, scores: seq<seq<seq<real>>>, other: seq<seq<seq<real>>>,
                            labels: seq<seq<int>>, row: nat)
    requires SameGrid(scores, labels) && SameGrid(other, labels)
    requires ValidLabels(scores, labels) && ValidLabels(other, labels)
    requires row < |labels| && forall a :: 0 <= a < |labels[row]| ==> labels[row][a] <= 0
    requires forall b :: 0 <= b < |labels| && b != row ==> scores[b] == other[b]
    ensures LabelSum(cfg, scores, labels) == LabelSum(cfg, other, labels)
  {
    NegativesIgnoreRow(cfg, scores, other, labels, row);
    var nll := NllLosses(scores, labels);
    var nllOther := NllLosses(other, labels);
    var selected := GridOr(PositiveMask(labels), Negatives(cfg, scores, labels));
    GridMaskedSumSkipsRow(nll, nllOther, selected, row);
    assert LabelSum(cfg, scores, labels) == GridMaskedSum(nll, selected);
    assert LabelSum(cfg, other, labels) == GridMaskedSum(nllOther, selected);
  }

  /** A batch row without positive anchors contributes nothing: its scores can
      be anything valid without changing the losses. */
  lemma RowWithoutPositivesIgnored(cfg: Config, bboxIn: seq<seq<seq<real>>>, bboxTgt: seq<seq<seq<real>>>,
                                   scores: seq<seq<seq<real>>>, other: seq<seq<seq<real>>>,
                                   labels: seq<seq<int>>, row: nat)
    requires WellShaped(bboxIn, bboxTgt, scores, labels) && WellShaped(bboxIn, bboxTgt, other, labels)
    requires ValidLabels(scores, labels) && ValidLabels(other, labels)
    requires row < |labels| && forall a :: 0 <= a < |labels[row]| ==> labels[row][a] <= 0
    requires forall b :: 0 <= b < |labels| && b != row ==> scores[b] == other[b]
    ensures Forward(cfg, bboxIn, bboxTgt, scores, labels) == Forward(cfg, bboxIn, bboxTgt, other, labels)
  {
    SelectionIgnoresRow(cfg, scores, other, labels, row);
  }

  /** A larger negative_ratio never lowers the classification sum. */
  lemma LabelSumRatioMonotone(cfg: Config, larger: Config, scores: seq<seq<seq<real>>>, labels: seq<seq<int>>)
    requires SameGrid(scores, labels) && ValidLabels(scores, labels)
    requires cfg.negativeRatio <= larger.negativeRatio && LogProbabilities(scores)
    ensures LabelSum(cfg, scores, labels) <= LabelSum(larger, scores, labels)
  {
    var positive := PositiveMask(labels);
    var nll := NllLosses(scores, labels);
    var neg1 := Negatives(cfg, scores, labels);
    var neg2 := Negatives(larger, scores, labels);
    forall b | 0 <= b < |labels| {
      RatioMonotone(nll[b], positive[b], cfg.negativeRatio, larger.negativeRatio);
    }
    GridMaskedSumMonotone(nll, GridOr(positive, neg1), GridOr(positive, neg2));
  }

  /** A larger negative_ratio never lowers the classification term. */
  lemma LabelLossRatioMonotone(cfg: Config, larger: Config, bboxIn: seq<seq<seq<real>>>,
                               bboxTgt: seq<seq<seq<real>>>, scores: seq<seq<seq<real>>>, labels: seq<seq<int>>)
    requires WellShaped(bboxIn, bboxTgt, scores, labels)
    requires cfg.negativeRatio <= larger.negativeRatio && LogProbabilities(scores)
    ensures var r := Forward(cfg, bboxIn, bboxTgt, scores, labels);
      var s := Forward(larger, bboxIn, bboxTgt, scores, labels);
      r.Ok? == s.Ok? && (r.Ok? ==> r.value.labelLoss <= s.value.labelLoss)
  {
    if ValidLabels(scores, labels) && NumPositive(labels) > 0 {
      var sum1 := LabelSum(cfg, scores, labels);
      var sum2 := LabelSum(larger, scores, labels);
      LabelSumRatioMonotone(cfg, larger, scores, labels);
      assert Forward(cfg, bboxIn, bboxTgt, scores, labels).value.labelLoss == Mean(sum1, NumPositive(labels));
      assert Forward(larger, bboxIn, bboxTgt, scores, labels).value.labelLoss == Mean(sum2, NumPositive(labels));
      QuotientMonotone(sum1, sum2, NumPositive(labels) as real);
    }
  }
}
