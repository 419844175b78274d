# ID3 decision-tree learner, modelled in Dafny

This project models `decision_trees/dtree.py`, a small ID3 learner. A dataset
`S` is a list of records, and each record maps attribute names to values. `D`
is the name of the boolean target. The learner works in these steps:

- `percent(S, D, v)` is the share of records whose `D` equals `v`.
- `H(S, D)` is the binary entropy of the share of positive records. It is
  zero on a pure dataset.
- `Gain(S, D, A)` is `H(S, D)` less the entropy of each group of records
  that share a value of `A`, weighted by that group's share.
- `ID3(S, D)` returns a leaf when `S` is pure. Otherwise it scores every
  test of every attribute of `S[0]` other than `D`:
  - an attribute whose value in `S[0]` is an `int` or `float` gives one
    threshold test `attr >= value` per distinct value observed;
  - any other attribute is used as it is.
- It then keeps the first test whose gain is strictly greater than the best
  so far, starting from the sentinel `-1`. It splits `S` into the records
  that pass the test and those that fail it, and learns a subtree from each
  side.

The model keeps the source's branches, its order of evaluation and its error
cases, apart from the departures listed under "## Left out". The most visible
one is that it does not write the synthetic threshold attributes into the
records (see the second Findings row).

- Python's `==` between booleans and numbers (`True == 1 == 1.0`) is modelled
  by comparing keys (`Values.KeyOf`).
- Python's truthiness is modelled by `Values.Truthy`.
- A record is an ordered list of fields, so "the attributes of `S[0]`" has a
  definite order.
- The entropy formula `-p log2 p - (1-p) log2 (1-p)` is a parameter
  `ent: real -> real` of every measure. Only its pure case (value 0) is
  fixed, exactly as in the source.
- Every Python exception the core can raise becomes an `Error` value:
  - `EmptyDataset` is the division by zero in `percent`;
  - `MissingAttribute` is a `KeyError`;
  - `Incomparable` is the `TypeError` of comparing a string with a number;
  - `NoSplit` is the `X[None]` lookup when no test was chosen;
  - `DegenerateSplit` is the `RecursionError` CPython raises when the learner
    calls itself on the same records again and again (see Findings).
- The synthetic `_id3{attr}>={value}` attributes the source writes into the
  records are modelled as a pure feature, `Features.AtLeast(attr, value)`.
  The `_id3` prefix filter on candidate attributes is kept. The write itself
  is modelled separately, in `Collision`, to show what it does to a target
  named like a synthetic attribute.

Modules, in dependency order:

| file | module | holds |
|---|---|---|
| results.dfy | Results | `Option`, `Result` with `:-` |
| values.dfy | Values | values, keys, records, errors |
| stats.dfy | Stats | counting, distinct keys, selection, partitions |
| features.dfy | Features | reading an attribute or threshold test; split sides |
| measures.dfy | Measures | `percent`, `H`, `Gain` and their properties |
| split.dfy | Split | candidate attributes, threshold tests, scoring, arg-max |
| id3.dfy | Id3 | the learner and the trees it builds |
| degenerate.dfy | Degenerate | the input under Findings on which the recursion makes no progress |
| collision.dfy | Collision | the write of synthetic attributes into the records, as the source performs it |

## Model

| member | source | states |
|---|---|---|
| Measures.Percent | decision_trees/dtree.py:7-12 | The result is Ok exactly when `S` is non-empty and every record has `D`. An empty `S` gives `EmptyDataset` and a missing `D` gives `MissingAttribute(D)`. The value is the number of records whose `D` equals `v` under Python `==`, divided by `len(S)`. It lies in [0, 1]; it is 1 iff every record's `D` equals `v` and 0 iff none does. |
| Measures.Proportion | decision_trees/dtree.py:12 | The share of records whose `D` equals `v` lies in [0, 1]. It is 1 iff all of them match and 0 iff none does. |
| Measures.PercentComplement | decision_trees/dtree.py:12 | When every label equals `True` or `False`, `percent(S, D, True) + percent(S, D, False) == 1`. |
| Stats.Share | decision_trees/dtree.py:12 | A share lies in [0, 1]. It is 0 iff the key is absent and 1 iff every position holds it. |
| Stats.Count | decision_trees/dtree.py:12 | A count is at most the length. It is 0 iff the key is absent and equals the length iff every position holds it. |
| Measures.H | decision_trees/dtree.py:14-22 | `H` is Ok iff `S` is non-empty and labelled. It is 0 when every record is positive or none is. On a mixed dataset it is `ent` of the positive share. |
| Measures.Gain | decision_trees/dtree.py:24-33 | `Gain` is Ok exactly when `S` is non-empty, every record has `D`, and the test can be read on every record. |
| Measures.Remainder | decision_trees/dtree.py:30-31 | The amount subtracted from `H(S, D)` is 0 when every group it weighs has entropy `H` equal to 0. |
| Measures.RemainderPermute | decision_trees/dtree.py:30-31 | The amount subtracted does not depend on the order in which the values are visited: any rearrangement of the same values, each as often, gives the same amount. |
| Measures.GainOrderFree | decision_trees/dtree.py:29-33 | Visiting the distinct values of `A` in any order, each once, as Python's `set` iteration does, gives the `Gain` the model computes in order of first occurrence. |
| Stats.SumPermute | decision_trees/dtree.py:30-31 | A sum of terms, one per value, does not depend on the order of the values. |
| Stats.SameElements | decision_trees/dtree.py:30 | Two duplicate-free lists with the same elements are the same multiset, whatever their order. |
| Measures.GainWeighsAPartition | decision_trees/dtree.py:29-33 | The groups `Gain` weighs, one per distinct value of the test, together hold every record of `S` exactly once (multiset union). Each group is non-empty, each record lies in the group of its own value, and the weights sum to 1. |
| Measures.WeightIsPercent | decision_trees/dtree.py:31 | For a stored attribute `A`, the weight given to value `V` equals `percent(S, A, V)`. |
| Measures.PureSplitGainsNothing | decision_trees/dtree.py:24-33 | On a dataset whose records all have the same label, every test gains exactly 0. |
| Measures.ConstantTestGainsNothing | decision_trees/dtree.py:24-33 | A test that every record answers alike gains exactly 0, whatever the entropy function. |
| Stats.SharesSumToOne | decision_trees/dtree.py:30-31 | The shares of a non-empty column sum to 1 over any duplicate-free list of keys that names every value of the column, such as its distinct values. |
| Stats.GroupsPartition | decision_trees/dtree.py:30-31 | When the keys are distinct and cover every row, the groups selected by those keys add up, as a multiset, to the whole list. |
| Stats.Distinct | decision_trees/dtree.py:30 | The deduplicated column holds every value of the column, nothing else, and no value twice. |
| Stats.Where | decision_trees/dtree.py:31 | The selection has as many entries as there are rows whose key matches, and every entry comes from such a row. On a single row, the row is kept iff its key matches. |
| Stats.WhereAppend | decision_trees/dtree.py:31 | Selecting from a concatenation gives the concatenated selections. With `Where`'s one-row case, the selection is therefore the matching rows, each once, in their original order. |
| Stats.WhereKeeps | decision_trees/dtree.py:31 | Every row whose key matches is selected. |
| Features.FeatureValue | decision_trees/dtree.py:59-62 | Reading a test succeeds iff the record has the attribute and, for a threshold, its value is a number. A stored attribute reads as the record's value. A threshold reads as the boolean `value >= cutoff`. |
| Features.Column | decision_trees/dtree.py:30 | The column is Ok iff the test can be read on every record, and then it holds, position by position, the value read. An error is the error of some record. |
| Features.Flags | decision_trees/dtree.py:78-79 | The side of each record is the truthiness of its test value. Flags exist exactly when the column does. |
| Features.FlagsSelect | decision_trees/dtree.py:78-79 | Selecting by the flags gives `[X for X in S if X[a]]` and `[X for X in S if not X[a]]`. |
| Features.Passing | decision_trees/dtree.py:78 | The true side is no longer than `S`, and each of its records is a record of `S` whose test reads as truthy. |
| Features.Failing | decision_trees/dtree.py:79 | The false side is no longer than `S`, and each of its records is a record of `S` whose test reads as falsy. |
| Stats.SplitPartition | decision_trees/dtree.py:78-79 | The two sides interleave to `S`: each keeps its records in their original order, together they are `S` as a multiset, and their lengths add up to `len(S)`. |
| Id3.NodeFromSides | decision_trees/dtree.py:77-84 | On a non-empty, labelled, mixed `S` whose split is accepted and whose two sides are both learnt, the learner returns the node of that test and gain over the tree of the true side and the tree of the false side. |
| Split.CandidateAttrs | decision_trees/dtree.py:51 | An attribute is a candidate iff it is a key of `S[0]` other than `D` that does not start with `_id3`. A single key is kept iff it is a candidate. |
| Split.CandidateAttrsAppend | decision_trees/dtree.py:51 | Filtering a concatenation gives the concatenated filtered parts. With the one-key case, the candidates are the qualifying keys of `S[0]` in their original order. |
| Split.Thresholds | decision_trees/dtree.py:54-68 | Thresholds exist iff every record has a numeric value for the attribute. Each one is `attr >= c` for a value `c` observed in `S`, and none is repeated. Otherwise the error is `MissingAttribute` or `Incomparable`. |
| Split.ThresholdsCover | decision_trees/dtree.py:56-62 | Every value observed for a numeric attribute yields a threshold test. |
| Split.AttrTests | decision_trees/dtree.py:52-75 | The tests of an attribute exist iff `S` is non-empty, `S[0]` has the attribute and, when `S[0][attr]` is an int or a float, every record holds a value comparable with a number. They are exactly the tests `IsTest` allows: thresholds at observed values when `S[0][attr]` is a number, the attribute itself otherwise. |
| Split.ScoreAll | decision_trees/dtree.py:56-75 | Scoring succeeds iff every test can be scored. It keeps the tests in order, and every recorded gain is the scorer's value for its test. |
| Split.AllTests | decision_trees/dtree.py:52-75 | The tests of a list of attributes exist iff the tests of each attribute exist. |
| Split.Evaluate | decision_trees/dtree.py:52-75 | When scoring succeeds, the tests scored are, in order, the tests of the first attribute, then those of the second, and so on (`Split.AllTests`). Every recorded gain is the scorer's value for its test. Scoring succeeds whenever those tests exist and each can be scored. |
| Split.EvaluatesEveryTest | decision_trees/dtree.py:51-75 | The tests scored are exactly the tests of the candidate attributes. |
| Split.ArgMax | decision_trees/dtree.py:47-75 | The chosen index has a gain above -1 and at least every gain, and every earlier gain is strictly smaller, so the first best wins ties. There is no choice iff every gain is at most -1. |
| Id3.Candidates | decision_trees/dtree.py:51-75 | The learner scores, in order, the tests of the candidate attributes of `S[0]`, and each recorded gain is that test's `Gain(S, D, test)`. Scoring succeeds whenever those tests exist and each has a `Gain`. |
| Id3.SelectSplit | decision_trees/dtree.py:47-79 | A chosen split gives one side flag per record, and the flags are the truth of the chosen test on each record. |
| Id3.ChooseSplit | decision_trees/dtree.py:77-82 | When the learner's choice exists, it is accepted iff both of its sides are non-empty. |
| Id3.SplitIsBest | decision_trees/dtree.py:47-75 | The chosen test is a test of a candidate attribute, and its gain is its `Gain` and above -1. No test of any candidate attribute has a greater gain. Among the scored tests it is the first with that gain. |
| Id3.NothingBeatsSentinel | decision_trees/dtree.py:47-75 | When no scored test has a gain above -1, no split is chosen and the result is `NoSplit`. |
| Id3.SelectSplitSucceeds | decision_trees/dtree.py:47-75 | Once the tests are scored, a split is chosen iff some scored test has a gain above -1. |
| Id3.ID3 | decision_trees/dtree.py:35-84 | A tree exists only for a non-empty, labelled `S`. The result is the positive leaf iff every record is positive, and the negative leaf iff none is. A node implies `S` holds both kinds of record. |
| Id3.NodeSides | decision_trees/dtree.py:77-84 | A node's test and gain are the learner's choice for `S`. Its left subtree is learnt from the records that pass the test and its right subtree from those that fail it. The two sides are non-empty, interleave to `S`, and their lengths add up to `len(S)`. |
| Id3.TreeFitsTrainingSet | decision_trees/dtree.py:40-84 | Every training record, routed from the root through the tests, reaches a leaf whose verdict is its own label. |
| Id3.LeavesAtMostRecords | decision_trees/dtree.py:35-84 | A learnt tree has at most as many leaves as `S` has records. |
| Id3.SingletonIsLeaf | decision_trees/dtree.py:40-45 | A single labelled record is learnt as the leaf of its own label. |
| Degenerate.ContradictoryPairSplitsOnItself | decision_trees/dtree.py:77-81 | On two records that agree on `c` but differ in label, the learner's own choice is `c >= 1` with gain 0. Its true side is both records, so `ID3(leftS, D)` receives `S` again. |
| Collision.Put | decision_trees/dtree.py:62 | `X[k] = v` makes `X[k]` read as `v` and leaves every other key's value alone. An existing key keeps its place among the keys; a new key goes last. |
| Collision.Stamp | decision_trees/dtree.py:60-62 | Writing `X[fake] = X[attr] >= value` into every record succeeds iff the threshold can be read on every record. Each record is then the old record with `fake` set to the truth of its threshold. |
| Collision.StampFlipsLabels | decision_trees/dtree.py:59-63 | On the second Findings input, writing `_id3c>=1` flips both labels. The true side of that test is then the first record alone, learnt as the positive leaf, although the first record is a negative example. |
| Degenerate.ContradictoryPairIsRefused | decision_trees/dtree.py:77-82 | The modelled learner answers `DegenerateSplit` on that input. |

## Left out

- The entropy formula and `math.log2` are left out: entropy is the parameter
  `ent`, so nothing that depends on the logarithm is stated.
- Measures.Gain: the contract does not state `0 <= Gain <= H`, because that
  rests on the concavity of `log2`, which an arbitrary `ent` lacks. The value
  of `Gain` is given only by its definition. What is stated about it is that
  it does not depend on the order of the values (`Measures.GainOrderFree`),
  the partition it weighs (`Measures.GainWeighsAPartition`), the weights
  (`Measures.WeightIsPercent`) and the zero cases.
- Measures.Remainder: the contract states only that the amount is 0 when
  every group is pure. The weighted sum of line 31 itself is given only by
  the definition; `Measures.RemainderPermute` states its order independence.
- Features.Passing, Features.Failing: their own contracts state only that
  each kept record belongs there. That no record is dropped and the order is
  kept follows from `Features.FlagsSelect` with `Stats.WhereKeeps` and
  `Stats.WhereAppend`.
- CPython's recursion limit (1000 frames by default) is not modelled. A
  dataset that needs a tree deeper than that ends in `RecursionError` in the
  source but is learnt by the model.
- Floating point is modelled as exact reals. `len(...)/len(S)` and the
  purity tests `== 1` and `== 0` are therefore exact. Rounding, `NaN` and
  infinities are not modelled.
- Python's `set` iteration order is replaced by first occurrence in `S`.
  A gain does not depend on that order (`Measures.GainOrderFree`), but the
  source's choice among tests of equal gain does.
- The source writes the synthetic attributes into the caller's records. The
  learner model computes them on demand instead, so the mutation visible to
  the caller is not modelled. When the target `D` is itself named like a
  synthetic attribute, the source's write replaces the labels while it
  scores the tests, and the learner goes on with the replaced labels. The
  learner model keeps the given labels; `Collision` models the write and
  its effect (second Findings row). The `hasattr(X, fake_attr)` guard is always false on
  a dict, so the source recomputes the same value every time; that has no
  effect on the result.
- The node's first element is the feature (`AtLeast(attr, value)` or
  `Attr(attr)`) rather than the formatted string `_id3{attr}>={value}`.
- The leaves `D` and `"Not " + D` are `Leaf(true)` and `Leaf(false)`.
- `binary_cutoff` is assigned but never read, so it is not modelled.
- Values are booleans, integers, floats and strings. `None`, nested
  containers and other types are not modelled.
- A dict key that appears twice cannot exist in Python. The model's lookup
  takes the first field of that name.
- When several Python exceptions could apply, the model reports the one the
  source raises first, in the source's order of evaluation. The exception
  classes are collapsed into the `Error` values listed above.
- The demonstration under `if __name__ == '__main__'` and its printing are
  left out.

## Findings

| source | as written | input that shows it | evidently intended | confidence | as-written member | corrected member |
|---|---|---|---|---|---|---|
| decision_trees/dtree.py:77-81 | When no test separates the records, the first test scored still wins with gain 0 over the sentinel -1. If that test holds on every record, `leftS` is `S` itself and `ID3(leftS, D)` calls itself on the same data until CPython's recursion limit raises `RecursionError`. | `[{'c': 1, 'play': True}, {'c': 1, 'play': False}]` with `D = 'play'`: the only test is `c >= 1`, and it holds on both records. | The learner should stop with an answer rather than recurse, without progress, into a `RecursionError` on a split that leaves a side empty. | high for the model, not executed | Degenerate.ContradictoryPairSplitsOnItself | Id3.ChooseSplit |
| decision_trees/dtree.py:59-63 | Each threshold test is written into every record under `_id3{attr}>={value}` before its gain is computed. When the target `D` has that name, the write replaces the labels, and the gain, the split and both subtrees are computed from the replaced labels. | `[{'c': 1, '_id3c>=1': False}, {'c': 0, '_id3c>=1': True}]` with `D = '_id3c>=1'`: scoring `c >= 1` flips both labels. The record with `c = 1` is then learnt under the leaf `D` although its label was `False`. | The labels should not change while the learner scores its tests, so the learnt tree fits the training records. | medium, not executed | Collision.StampFlipsLabels | Id3.TreeFitsTrainingSet |

The corrected learner (`Id3.ChooseSplit`, used by `Id3.ID3`) refuses a split
whose false side is empty (`DegenerateSplit`). It also refuses one whose true
side is empty: in the source that is a division by zero in `percent`, so it
is reported as `EmptyDataset`. `ChooseSplit`'s contract states that an accepted
split has two non-empty sides, and `Id3.NodeSides` shows that every node's
sides are strictly smaller than `S`. `Degenerate.ContradictoryPairIsRefused`
shows the corrected learner answering `DegenerateSplit` on the input above.

For the second row, the learner model never writes into the records, so
labels keep their given values. `Id3.TreeFitsTrainingSet` proves that every
training record is routed to the leaf of its own label, on every input,
including the one above.
