# SSD loss with hard-negative mining

A model of `SSDLoss` from `fpnssd/losses/ssd_loss.py`, the training objective
of a single-shot object detector. Each call takes predicted and target box
offsets, per-anchor class log-probabilities and integer target labels for a
`[batch_size, num_anchors]` grid of anchors. From these it computes:

- the positive mask `label_target > 0`;
- a smooth-L1 localisation term over the boxes of positive anchors;
- a per-anchor negative-log-likelihood (NLL) classification loss;
- the hard negatives, which per row are the anchors ranked below
  `negative_ratio * (positives in the row)` by a double argsort of
  `loss * (positive - 1)`;
- the combined loss `bbox + alpha * label`, where both terms are divided by
  the batch's positive count.

The code is pure tensor arithmetic, so the model is pure functions and lemmas:

- `sorting.dfy` (module `Sorting`): argsort, permutations of `0..n-1`, and the
  fact that sorting a permutation by its own entries yields its inverse.
- `masks.dfy` (module `Masks`): boolean rows and grids, `|`, `~`, `.sum()`.
- `masked_sums.dfy` (module `MaskedSums`): `tensor[mask].sum()`.
- `smooth_l1.dfy` (module `SmoothL1Loss`): `F.smooth_l1_loss` with threshold 1
  and summed reduction.
- `mining.dfy` (module `HardNegativeMining`): `_hard_negative_mining`.
- `ssd_loss.dfy` (module `SsdLoss`): `forward` and the configuration
  `alpha = 1`, `negative_ratio = 3`.

Losses are mathematical `real`s, not IEEE floats. `negative_ratio` is a `nat`;
the code's default is the integer 3.

`torch.sort` does not promise an order among equal keys. So the mining lemmas
are stated for every pair `idx`, `rank` satisfying `Ranks`: `idx` sorts the
effective losses ascending, and `rank` sorts `idx`. The concrete `MineRow` uses
a stable insertion sort. `MineRowRanks` shows that this sort is one such
ranking, and `RankUnique` shows that the second sort has only one possible
result.

What the code does at the edges of mining:

- Saturation. Once `negative_ratio * positives` reaches the row length, every
  rank is below the cutoff. The negative mask then also marks positive anchors,
  so a row's mask counts `min(k, n)` anchors. The count
  `min(k, n - positives)` and the disjointness of negatives from positives hold
  for the non-positive part of the mask. They also need every non-positive
  anchor to have a loss above 0, because a loss of 0 ties with the 0 that
  positives are mapped to. `forward` only uses the union `positive | negative`.
- With positives at anchors 0 and 4, a ratio of 1 and losses 0.1, 0.9 and 0.5
  at anchors 1 to 3, the code marks anchors 2 and 3, the two largest losses
  (`ScenarioHardestTwo`).
- The negative mask is not monotone in the positives: making a non-positive
  anchor positive raises the cutoff but can unmark that anchor
  (`PositiveCountNotMonotone`).

## Model

| member | source | states |
|---|---|---|
| `Sorting.Argsort` | fpnssd/losses/ssd_loss.py:24 | the argsort lists the row positions 0..n-1 once each (in bounds and of length n) in ascending order of the keys |
| `HardNegativeMining.Effective` | fpnssd/losses/ssd_loss.py:21 | positives become 0 and other anchors their negated loss; a non-positive anchor with a loss of at least 0 never has a larger effective loss than a positive |
| `HardNegativeMining.NumNegative` | fpnssd/losses/ssd_loss.py:29 | the cutoff is 0 exactly when the ratio is 0 or the row has no positive; with a ratio above 0 it is at least the positive count |
| `HardNegativeMining.NumNegativeMonotone` | fpnssd/losses/ssd_loss.py:29 | a larger negative_ratio gives a cutoff no smaller |
| `HardNegativeMining.RowRankRanks` | fpnssd/losses/ssd_loss.py:21-26 | the double insertion-sort argsort of the effective losses is a valid ranking of them |
| `HardNegativeMining.RankInverse` | fpnssd/losses/ssd_loss.py:24-26 | the second argsort is the inverse of the first: `idx[rank[a]] == a` and `rank[idx[j]] == j` |
| `HardNegativeMining.RankUnique` | fpnssd/losses/ssd_loss.py:26 | however ties are broken in the first sort, the second sort has exactly one result |
| `HardNegativeMining.RankOrder` | fpnssd/losses/ssd_loss.py:24-26 | an anchor with a smaller rank has an effective loss no larger |
| `HardNegativeMining.NegativeCount` | fpnssd/losses/ssd_loss.py:29-32 | for any ranking, `rank < k` marks exactly min(k, n) anchors |
| `HardNegativeMining.SelectedAreSortedPrefix` | fpnssd/losses/ssd_loss.py:24-32 | the marked anchors are exactly the first min(k, n) entries of the sorted order |
| `HardNegativeMining.HardestFirst` | fpnssd/losses/ssd_loss.py:21-32 | a marked anchor never has a larger effective loss than an unmarked one |
| `HardNegativeMining.SaturationMarksAll` | fpnssd/losses/ssd_loss.py:32 | a cutoff of at least n marks every anchor of the row |
| `HardNegativeMining.HarderNegativeFirst` | fpnssd/losses/ssd_loss.py:21-32 | among non-positive anchors, one with a strictly larger loss is marked whenever one with a smaller loss is |
| `HardNegativeMining.StrictlySmallerFirst` | fpnssd/losses/ssd_loss.py:24-26 | a strictly smaller effective loss always gets a strictly smaller rank |
| `HardNegativeMining.PositivesRankedLast` | fpnssd/losses/ssd_loss.py:21-26 | when non-positive losses are above 0, every non-positive anchor ranks before every positive anchor |
| `HardNegativeMining.PositivesTakeLastRanks` | fpnssd/losses/ssd_loss.py:21-26 | under the same condition, positives hold exactly the last `positive.sum()` ranks and the other anchors the ranks before them |
| `HardNegativeMining.DisjointUnlessSaturated` | fpnssd/losses/ssd_loss.py:21-32 | for a cutoff up to n - positives (and non-positive losses above 0), no positive anchor is marked |
| `HardNegativeMining.MinedNegativeCount` | fpnssd/losses/ssd_loss.py:21-32 | the non-positive anchors marked number exactly min(k, n - positives) |
| `HardNegativeMining.MineRow` | fpnssd/losses/ssd_loss.py:21-32 | a mined row has the row's length and marks exactly min(negative_ratio * positive.sum(), n) anchors; a row with no positive marks none |
| `HardNegativeMining.MineRowRanks` | fpnssd/losses/ssd_loss.py:21-32 | the mined row is `rank < negative_ratio * positive.sum()` for a valid ranking of `loss * (positive - 1)` |
| `HardNegativeMining.MineRowHardestFirst` | fpnssd/losses/ssd_loss.py:21-32 | in a mined row, no unmarked anchor has a smaller effective loss than a marked one |
| `HardNegativeMining.MineRowNonPositiveCount` | fpnssd/losses/ssd_loss.py:21-32 | with non-positive losses above 0, a mined row marks min(negative_ratio * positives, n - positives) non-positive anchors |
| `HardNegativeMining.MineRowDisjoint` | fpnssd/losses/ssd_loss.py:21-32 | below saturation, with non-positive losses above 0, a mined row marks no positive anchor |
| `HardNegativeMining.RatioMonotone` | fpnssd/losses/ssd_loss.py:29-32 | a larger negative_ratio marks a superset of the anchors |
| `HardNegativeMining.Mine` | fpnssd/losses/ssd_loss.py:13-33 | the mined batch has the batch's shape and is the mined row for every row; each row marks min(negative_ratio * positives, n) anchors |
| `HardNegativeMining.MineIgnoresRow` | fpnssd/losses/ssd_loss.py:13-33 | a row without positives marks nothing, so its losses do not affect the mined batch |
| `HardNegativeMining.ScenarioHardestTwo` | fpnssd/losses/ssd_loss.py:21-32 | positives at 0 and 4, ratio 1, losses 0.1, 0.9, 0.5 at anchors 1 to 3: anchors 2 and 3 are marked |
| `HardNegativeMining.ScenarioSaturation` | fpnssd/losses/ssd_loss.py:29-32 | four positives of five at ratio 3: all five anchors are marked, one of them non-positive |
| `HardNegativeMining.HardestOneForRanking` | fpnssd/losses/ssd_loss.py:21-32 | positive at 0 only, ratio 1, losses 0.1, 0.9, 0.5, 0.2 at anchors 1 to 4: any ranking marks anchor 2 |
| `HardNegativeMining.OnePositiveMarksHardest` | fpnssd/losses/ssd_loss.py:21-32 | the same row mined by MineRow marks anchor 2 |
| `HardNegativeMining.TwoPositivesSkipAnchor` | fpnssd/losses/ssd_loss.py:21-32 | with anchor 2 made positive as well the cutoff is 2 and anchor 2 is not marked |
| `HardNegativeMining.PositiveCountNotMonotone` | fpnssd/losses/ssd_loss.py:21-32 | adding a positive can unmark an anchor: the negative mask is not monotone in the positives |
| `Sorting.InverseOfSortedPermutation` | fpnssd/losses/ssd_loss.py:26 | sorting a permutation by its own entries gives its inverse |
| `SmoothL1Loss.SmoothL1` | fpnssd/losses/ssd_loss.py:52 | smooth-L1 of a residual lies between 0 and its absolute value, and is 0 exactly at 0 |
| `SmoothL1Loss.SmoothL1Bounds` | fpnssd/losses/ssd_loss.py:52 | smooth-L1 lies between the line abs(x) - 1/2 and the half square, meeting the square below 1 and the line from 1 on |
| `SmoothL1Loss.BoxLoss` | fpnssd/losses/ssd_loss.py:52 | the summed smooth-L1 between two boxes is non-negative, and 0 exactly when the boxes are equal |
| `MaskedSums.GridMaskedSumNonnegative` | fpnssd/losses/ssd_loss.py:52-59 | a masked sum of non-negative losses is non-negative, and 0 exactly when every selected loss is |
| `MaskedSums.GridMaskedSumLocal` | fpnssd/losses/ssd_loss.py:52-59 | a masked sum depends only on the entries the mask selects |
| `MaskedSums.GridMaskedSumSkipsRow` | fpnssd/losses/ssd_loss.py:52-59 | a masked sum does not depend on a row the mask leaves empty |
| `MaskedSums.GridMaskedSumOr` | fpnssd/losses/ssd_loss.py:59 | summing over the union of p and q is summing over p and then over the anchors of q outside p |
| `MaskedSums.GridMaskedSumMonotone` | fpnssd/losses/ssd_loss.py:59 | a larger mask over non-negative losses gives a sum no smaller |
| `Masks.CountOr` | fpnssd/losses/ssd_loss.py:59 | the union of p and q counts the anchors of p plus those of q outside p |
| `SsdLoss.PositiveMaskEmpty` | fpnssd/losses/ssd_loss.py:46-47 | the positive mask counts 0 anchors exactly when no label is above 0 |
| `SsdLoss.NumPositive` | fpnssd/losses/ssd_loss.py:47 | the batch's positive count is 0 exactly when no label is above 0 |
| `SsdLoss.BoxLosses` | fpnssd/losses/ssd_loss.py:51-52 | the per-anchor smooth-L1 box losses have the grid's shape and are non-negative and 0 exactly where the predicted box equals the target |
| `SsdLoss.Nll` | fpnssd/losses/ssd_loss.py:56 | the per-anchor NLL is 0 for an ignored target and non-negative on log-probabilities |
| `SsdLoss.NllLosses` | fpnssd/losses/ssd_loss.py:56 | the unreduced NLL grid is non-negative on log-probabilities |
| `SsdLoss.Negatives` | fpnssd/losses/ssd_loss.py:56-58 | the mined negatives of forward have the grid's shape and mark min(negative_ratio * positives, n) anchors in each row |
| `SsdLoss.BoxSum` | fpnssd/losses/ssd_loss.py:51-52 | the localisation sum is non-negative and 0 exactly when every positive anchor's box is predicted exactly |
| `SsdLoss.LabelSum` | fpnssd/losses/ssd_loss.py:56-59 | the classification sum over the positives and the mined negatives is non-negative on log-probabilities |
| `SsdLoss.Normalised` | fpnssd/losses/ssd_loss.py:52-65 | `main_loss == bbox_loss + alpha * label_loss`, and every term is non-negative when the sums and alpha are |
| `SsdLoss.Forward` | fpnssd/losses/ssd_loss.py:35-65 | an out-of-range label is reported exactly when one occurs; a batch with no positive anchor, where the code divides by 0, is reported exactly when no label is above 0 |
| `SsdLoss.ForwardNonnegative` | fpnssd/losses/ssd_loss.py:52-62 | with alpha at least 0 and log-probability scores, all three returned losses are non-negative |
| `SsdLoss.BoxLossZero` | fpnssd/losses/ssd_loss.py:51-52 | the localisation term is 0 exactly when every positive anchor's box is predicted exactly |
| `SsdLoss.BoxesOnlyAtPositives` | fpnssd/losses/ssd_loss.py:51-52 | changing boxes at non-positive anchors leaves every returned loss unchanged |
| `SsdLoss.LabelLossSplits` | fpnssd/losses/ssd_loss.py:56-59 | label_loss is the NLL summed over the positives and the mined negatives outside them, each anchor once, divided by the positive count |
| `SsdLoss.NegativesIgnoreRow` | fpnssd/losses/ssd_loss.py:56-59 | the mined negatives do not depend on the scores of a row without positives; that row is empty in the negatives and in their union with the positives |
| `SsdLoss.SelectionIgnoresRow` | fpnssd/losses/ssd_loss.py:56-59 | the classification sum does not depend on the scores of a row without positives |
| `SsdLoss.RowWithoutPositivesIgnored` | fpnssd/losses/ssd_loss.py:35-65 | a batch row without positive anchors cannot change any returned loss through its scores |
| `SsdLoss.LabelSumRatioMonotone` | fpnssd/losses/ssd_loss.py:29-59 | a larger negative_ratio never lowers the classification sum on log-probabilities |
| `SsdLoss.LabelLossRatioMonotone` | fpnssd/losses/ssd_loss.py:29-59 | a larger negative_ratio never lowers label_loss, and does not change whether forward succeeds |

## Left out

- Autograd, `nn.Module`, device placement and the `.item()` host transfer: they do not change the computed values.
- IEEE floating point (rounding, NaN, Inf). Losses are exact reals.
- The log-softmax that produces `label_input` is done by the caller. `LogProbabilities` states what the model assumes of its result.
- `F.nll_loss` is modelled per anchor as `-label_input[b][a][label]` over `[batch, anchors, classes]` scores. The code passes the scores with the class dimension last, where the library expects it second; the model follows the documented shapes and does not capture that layout.
- `label_target` is modelled as integer labels of shape `[batch, anchors]`, as the code uses it; the `[batch, anchors, num_classes]` shape in the docstring is not modelled.
- Shape validation is a precondition (`WellShaped`), not an error path.
- Only an out-of-range label is modelled as an error. The library's other argument checks are not part of this model.
- The ordering torch gives to equal keys in `sort` is not modelled. The ranking lemmas hold for every sorting permutation, and `MineRow` uses a stable one.
- SsdLoss.Config: `negative_ratio` is a `nat`. The code accepts any number; a fractional ratio makes the cutoff fractional, so `rank < cutoff` marks the ceiling of ratio * positives anchors. Only whole ratios, including the default 3, are modelled.
- SsdLoss.Forward: with no positive anchor the code raises nothing. Lines 52 and 59 divide a sum of 0 by the integer count 0 and return NaN losses. Exact reals have no NaN, so the model returns `Err(NoPositiveAnchors)` in that case.
- HardNegativeMining.RatioMonotone: monotonicity holds for the ratio only. It does not hold for the positives: `PositiveCountNotMonotone` exhibits a row where one more positive unmarks an anchor, although `positive | negative` still covers it.
- Order independence (permuting the anchors of a row and back) is not stated as a lemma.
