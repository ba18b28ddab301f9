# semiJCP core, modelled in Dafny

This project models the discrete core of semiJCP, a Java library for conformal
prediction. Four components are modelled, each with its contracts proved.

- **Transductive conformal classifier** (`transductive.dfy`, with the pure
  specification in `scores.dfy`).
  - The constructor builds a sorted, duplicate-free label array and a label→index
    map from the training targets.
  - `fit` stores a training set. `isTrained` and `getAttributeCount` report on it.
  - For each instance, the classifier copies the training set into an (n+1)-slot
    buffer. It writes the instance into the last row and each candidate label in
    turn into the last label slot. For each candidate it computes the nonconformity
    scores. It then takes the test score and the calibration scores, filtered by
    label in label-conditional mode and sorted. It turns them into one p-value per
    label.
  - The batch paths reuse one buffer for all instances.
  - The nonconformity function (its `fitNew` followed by `calc_nc`) is a function
    value that yields one score per row. The p-value rule `Util.calculatePValue` is
    a function value on the test score and the sorted calibration scores. Neither is
    interpreted further.
- **Evaluation tally** (`tally.dfy`): the per-instance counting loop of the
  command-line test run. It computes each instance's prediction-set size and the
  rank of its true label among the sorted test labels. It increments the
  histograms of predictions and of correct predictions per set size, per class,
  and per class and set size.
- **liblinear sparse vector** (`sparse_vector.dfy`): a class over an array of
  (1-based index, value) nodes.
  - Three constructors build the node array.
  - `getQuick` searches the nodes linearly and defaults to 0.0.
  - `setQuick` updates a node in place, or grows the array by one node at its
    sorted position.
  - `assign` shares another sparse vector's nodes or rebuilds them from a dense
    vector's non-zero cells.
- **Nonconformity-function factory** (`factory.dfy`): the singleton that turns a
  strategy selector, a label array and a classifier into one of three strategies
  or an unsupported-operation error.

`wrappers.dfy` holds the `Option`, `Result` and `Outcome` datatypes. Java
exceptions become `Failure`/`Fail` values of these types, as follows:

- NullPointer: a prediction on an unfitted classifier, or on one fitted with a
  non-empty matrix but no targets.
- IndexOutOfBounds: a target array shorter than the training matrix, or a
  p-value vector shorter than the label list.
- IllegalArgument: an instance whose width differs from the training matrix, or
  a size mismatch in `assign`.

The label→index map of the classifier sends each target to the position of its
*last* occurrence in the targets array. A map from each label to its rank in
the label array would be a bijection onto 0..L-1, where L is the number of
labels. This map is not one: `IndexMapIsNotRank` and `IndexMapCanExceedLabels`
show inputs on which it differs from the rank. Nothing in the modelled files
reads the map.

## Model

| member | source | states |
|---|---|---|
| `ConformalScores.Labels` | src/se/hb/jcp/cp/TransductiveConformalClassifier.java:77-82 | the label array is strictly increasing and holds exactly the values occurring in the targets |
| `ConformalScores.IndexMap` | src/se/hb/jcp/cp/TransductiveConformalClassifier.java:77-80 | the map's keys are exactly the targets; each key maps to a position holding that target, and no later position holds it (last occurrence wins) |
| `ConformalScores.IndexMapIsNotRank` | src/se/hb/jcp/cp/TransductiveConformalClassifier.java:78-82 | for targets [2.0, 1.0] the label array is [1.0, 2.0] but 2.0 maps to 0, so the map is not the rank in the label array |
| `ConformalScores.IndexMapCanExceedLabels` | src/se/hb/jcp/cp/TransductiveConformalClassifier.java:78-82 | for targets [1.0, 1.0] there is one label, yet it maps to 1, outside the label array |
| `TransductiveCP.TransductiveConformalClassifier.LabelSet` | src/se/hb/jcp/cp/TransductiveConformalClassifier.java:77-82 | the map filled by the loop is `IndexMap(targets)`, and the key array, sorted once more, is `Labels(targets)` |
| `TransductiveCP.TransductiveConformalClassifier.constructor` | src/se/hb/jcp/cp/TransductiveConformalClassifier.java:70-83 | the classifier keeps the nonconformity function and mode, its labels are `Labels(targets)`, its index map is `IndexMap(targets)`, and it is untrained |
| `TransductiveCP.TransductiveConformalClassifier.Unconditional` | src/se/hb/jcp/cp/TransductiveConformalClassifier.java:55-60 | as the three-argument constructor, with label conditioning off |
| `TransductiveCP.TransductiveConformalClassifier.Fit` | src/se/hb/jcp/cp/TransductiveConformalClassifier.java:91-95 | stores both arguments; afterwards the classifier is trained iff a matrix was given, and the attribute count is its column count or -1 |
| `TransductiveCP.TransductiveConformalClassifier.IsTrained` | src/se/hb/jcp/cp/TransductiveConformalClassifier.java:279-282 | trained exactly when the attribute count is not -1, that is when a training matrix is stored |
| `TransductiveCP.TransductiveConformalClassifier.AttributeCount` | src/se/hb/jcp/cp/TransductiveConformalClassifier.java:279-292 | -1 exactly when no training matrix is stored (not trained), otherwise the matrix's column count |
| `TransductiveCP.TransductiveConformalClassifier.BufferError` | src/se/hb/jcp/cp/TransductiveConformalClassifier.java:360-369 | no error only when a matrix is stored and, if it has rows, a target array at least as long |
| `TransductiveCP.TransductiveConformalClassifier.CreateLocalTrainingSet` | src/se/hb/jcp/cp/TransductiveConformalClassifier.java:355-372 | fails exactly on the null or short training data, with that exception; otherwise returns fresh n+1 slot buffers whose first n rows and labels are the stored ones, and whose last slot is a zero row and 0.0 |
| `TransductiveCP.NonconformityScores` | src/se/hb/jcp/cp/TransductiveConformalClassifier.java:326-347 | the test score is the last score; the calibration scores are sorted and are a permutation of the selected scores |
| `TransductiveCP.PValues` | src/se/hb/jcp/cp/TransductiveConformalClassifier.java:247-257 | one p-value per class, in the order of the label array |
| `TransductiveCP.LabelPValueOfSortedScores` | src/se/hb/jcp/cp/TransductiveConformalClassifier.java:249-256 | the p-value of a candidate label is the p-value rule applied to x's own score (x's row placed last, with the candidate as its target) and to any sorted arrangement of the calibration scores selected with the candidate as target |
| `TransductiveCP.PValuesOfSortedScores` | src/se/hb/jcp/cp/TransductiveConformalClassifier.java:247-257 | the i-th p-value is that of the i-th class taken as x's label: the rule applied to x's score and the sorted calibration scores selected for that class |
| `TransductiveCP.CalibrationSize` | src/se/hb/jcp/cp/TransductiveConformalClassifier.java:330-343 | there are n calibration scores in plain mode, and in label-conditional mode as many as training rows carrying the hypothesised label |
| `TransductiveCP.ConditionalCalibrationFromLabel` | src/se/hb/jcp/cp/TransductiveConformalClassifier.java:332-340 | every label-conditional calibration score is the score of a training row whose label equals the hypothesised label |
| `ConformalScores.Calibration` | src/se/hb/jcp/cp/TransductiveConformalClassifier.java:342-344 | in plain mode the calibration scores are exactly scores 0..n-1 |
| `ConformalScores.MatchingCount` | src/se/hb/jcp/cp/TransductiveConformalClassifier.java:333-341 | the filtered scores number exactly the rows below n with the target label |
| `ConformalScores.MatchingFromLabelledRows` | src/se/hb/jcp/cp/TransductiveConformalClassifier.java:336-340 | every filtered score is the score of some row below n with the target label |
| `ConformalScores.MatchingAllLabelled` | src/se/hb/jcp/cp/TransductiveConformalClassifier.java:330-344 | when every row carries the target label, the two modes select the same calibration scores |
| `TransductiveCP.SelectMatching` | src/se/hb/jcp/cp/TransductiveConformalClassifier.java:333-341 | the running-counter loop and the final copy yield a fresh array holding the filtered scores in row order |
| `TransductiveCP.CopyOf` | src/se/hb/jcp/cp/TransductiveConformalClassifier.java:341 | a fresh array holding exactly the first c elements of the filled array |
| `TransductiveCP.CopyPrefix` | src/se/hb/jcp/cp/TransductiveConformalClassifier.java:343 | a fresh array holding the first n scores |
| `TransductiveCP.SortCalibration` | src/se/hb/jcp/cp/TransductiveConformalClassifier.java:345 | after sorting in place, the array is the unique sorted arrangement of its former contents |
| `ConformalScores.Sort` | src/se/hb/jcp/cp/TransductiveConformalClassifier.java:345 | the result is sorted ascending and a permutation of the input |
| `ConformalScores.SortIsUnique` | src/se/hb/jcp/cp/TransductiveConformalClassifier.java:345 | any sorted permutation of the input is `Sort` of it, so an in-place sort is pinned down by its result |
| `ConformalScores.SortInPlace` | src/se/hb/jcp/cp/TransductiveConformalClassifier.java:345 | the array ends sorted ascending, with the same multiset of values |
| `TransductiveCP.TransductiveConformalClassifier.CalculateNonconformityScore` | src/se/hb/jcp/cp/TransductiveConformalClassifier.java:319-348 | returns the last score and a fresh sorted calibration array equal to `NonconformityScores` of the buffers |
| `TransductiveCP.TransductiveConformalClassifier.CandidatePValue` | src/se/hb/jcp/cp/TransductiveConformalClassifier.java:249-255 | writes the candidate label into the last label slot, leaves the other slots, and returns the p-value for that candidate |
| `TransductiveCP.TransductiveConformalClassifier.PredictPValuesInto` | src/se/hb/jcp/cp/TransductiveConformalClassifier.java:239-258 | buffer rows and labels 0..last-1 unchanged; row last is x; label slot last holds the last label tried; pValues[i] is the p-value of label i for every label that fits, the rest untouched; an index error exactly when pValues is shorter than the label list |
| `TransductiveCP.TransductiveConformalClassifier.PredictWithBuffers` | src/se/hb/jcp/cp/TransductiveConformalClassifier.java:151-157 | the classification of x against the buffer's first n rows and labels, which it leaves unchanged |
| `TransductiveCP.TransductiveConformalClassifier.PredictPValuesTo` | src/se/hb/jcp/cp/TransductiveConformalClassifier.java:213-228 | with a fresh buffer: the training-data exception, or IllegalArgument for a width mismatch, or the instance's p-values with the rest of pValues untouched, or an index error after the p-values that fit |
| `TransductiveCP.TransductiveConformalClassifier.PredictPValues` | src/se/hb/jcp/cp/TransductiveConformalClassifier.java:199-204 | the instance's p-values, one per label, or the exception of the training data or the width check |
| `TransductiveCP.TransductiveConformalClassifier.Predict` | src/se/hb/jcp/cp/TransductiveConformalClassifier.java:137-140 | the classification over the classifier's labels with the instance's p-values, or the same exceptions |
| `TransductiveCP.TransductiveConformalClassifier.PredictPValuesBatch` | src/se/hb/jcp/cp/TransductiveConformalClassifier.java:166-190 | with one reused buffer, row i of the result holds exactly the p-values a fresh buffer gives row i of x; failures as for one instance |
| `TransductiveCP.TransductiveConformalClassifier.PredictBatch` | src/se/hb/jcp/cp/TransductiveConformalClassifier.java:104-128 | with one reused buffer, slot i holds exactly the classification a fresh buffer gives row i of x; failures as for one instance |
| `EvaluationTally.ClassIndex` | src/se/hb/jcp/cli/CCTools.java:135 | the head-set size is at most the label count, and below it when the label occurs |
| `EvaluationTally.ClassIndexIsPosition` | src/se/hb/jcp/cli/CCTools.java:135 | in a strictly increasing label array, the number of labels below label k is k, so the class index is the true label's rank |
| `EvaluationTally.SetSizeCounts` | src/se/hb/jcp/cli/CCTools.java:136-149 | the prediction-set size is the number of labels whose p-value is at least the significance level |
| `EvaluationTally.PredictionSetSize` | src/se/hb/jcp/cli/CCTools.java:136-149 | the counting loop computes `SetSize`, which lies in 0..classes |
| `EvaluationTally.HitIsTrueLabelInSet` | src/se/hb/jcp/cli/CCTools.java:171-172 | an instance counts as correct iff the p-value at its true label's position reaches the significance level |
| `EvaluationTally.CountInstance` | src/se/hb/jcp/cli/CCTools.java:167-177 | the increments of one instance are `Record`: the three prediction histograms always, the correct count and three correct histograms exactly on a hit |
| `EvaluationTally.Evaluate` | src/se/hb/jcp/cli/CCTools.java:119-180 | the loop's counters after all instances are `TallyOf` of the whole input |
| `EvaluationTally.TallyTotals` | src/se/hb/jcp/cli/CCTools.java:167-177 | after n instances, `predictionsAtSize` and `predictionsForClass` each sum to n, each class's size row sums to its class count, and the same holds for the correct counters with total `correct` |
| `EvaluationTally.TallyBounds` | src/se/hb/jcp/cli/CCTools.java:167-177 | every correct counter lies between 0 and its prediction counter, and `correct` is at most the number of instances |
| `EvaluationTally.CorrectCountsHits` | src/se/hb/jcp/cli/CCTools.java:171-177 | `correct` is the number of instances whose true label is in their prediction set |
| `EvaluationTally.RecordBalanced` | src/se/hb/jcp/cli/CCTools.java:167-177 | one instance's increments keep every histogram sum in step with its total |
| `EvaluationTally.RecordBounded` | src/se/hb/jcp/cli/CCTools.java:167-177 | one instance's increments keep every correct counter within its prediction counter |
| `LiblinearSparse.SparseDoubleMatrix1D.Dense` | src/se/hb/jcp/bindings/jliblinear/SparseDoubleMatrix1D.java:53-61 | size is the value count and node i is (i+1, values[i]) |
| `LiblinearSparse.SparseDoubleMatrix1D.Indexed` | src/se/hb/jcp/bindings/jliblinear/SparseDoubleMatrix1D.java:73-82 | size is the given column count and node i is (indices[i]+1, values[i]) |
| `LiblinearSparse.SparseDoubleMatrix1D.Empty` | src/se/hb/jcp/bindings/jliblinear/SparseDoubleMatrix1D.java:91-95 | size is the given column count, there are no nodes, and every cell reads 0.0 |
| `LiblinearSparse.SparseDoubleMatrix1D.GetQuick` | src/se/hb/jcp/bindings/jliblinear/SparseDoubleMatrix1D.java:188-196 | the value of the first node with index column+1, and 0.0 when there is none |
| `LiblinearSparse.SparseDoubleMatrix1D.SetQuick` | src/se/hb/jcp/bindings/jliblinear/SparseDoubleMatrix1D.java:211-231 | afterwards the cell reads the new value and every other cell reads as before; the array is kept when the node exists or the value is zero, and replaced by a fresh one otherwise |
| `LiblinearSparse.LookupAfter` | src/se/hb/jcp/bindings/jliblinear/SparseDoubleMatrix1D.java:211-231 | after an assignment, a read at the assigned index gives the new value and a read at any other index gives the old one |
| `LiblinearSparse.LookupAssignedSame` | src/se/hb/jcp/bindings/jliblinear/SparseDoubleMatrix1D.java:214-226 | a read at the assigned index gives the assigned value |
| `LiblinearSparse.LookupAssignedOther` | src/se/hb/jcp/bindings/jliblinear/SparseDoubleMatrix1D.java:214-229 | a read at any other index is unaffected by the assignment |
| `LiblinearSparse.AssignedLength` | src/se/hb/jcp/bindings/jliblinear/SparseDoubleMatrix1D.java:214-230 | the node count is unchanged when the index is present (even for 0.0) or when it is absent and the value is 0.0, and grows by one otherwise |
| `LiblinearSparse.AssignedKeepsOrder` | src/se/hb/jcp/bindings/jliblinear/SparseDoubleMatrix1D.java:221-229 | strictly increasing node indices stay strictly increasing after an assignment |
| `LiblinearSparse.InsertNode` | src/se/hb/jcp/bindings/jliblinear/SparseDoubleMatrix1D.java:221-229 | the grown array is the old nodes below the insertion position, the new node, then the remaining old nodes |
| `LiblinearSparse.SparseDoubleMatrix1D.Assign` | src/se/hb/jcp/bindings/jliblinear/SparseDoubleMatrix1D.java:116-125 | assigning from itself changes nothing; otherwise it fails on a size mismatch, and on success shares the other vector's node array, so every cell reads as the other's |
| `LiblinearSparse.SparseDoubleMatrix1D.AssignDense` | src/se/hb/jcp/bindings/jliblinear/SparseDoubleMatrix1D.java:126-136 | fails exactly on a size mismatch; on success the nodes are a fresh array holding exactly one node (column+1, value) per non-zero cell, in column order and strictly increasing; every cell of the vector reads as the dense vector's, and every cell outside it reads 0.0 |
| `LiblinearSparse.NonZeroNodesAgree` | src/se/hb/jcp/bindings/jliblinear/SparseDoubleMatrix1D.java:127-134 | the nodes built from the non-zero cells give every cell of the dense vector back |
| `NonconformityFactory.Factory.NonconformityFunctions` | src/se/hb/jcp/nc/ClassificationNonconformityFunctionFactory.java:34-48 | exactly three names, in the order hinge loss, SVM distance, attribute average |
| `NonconformityFactory.Factory.CreateNonconformityFunction` | src/se/hb/jcp/nc/ClassificationNonconformityFunctionFactory.java:50-81 | selectors 0 and 2 always succeed, selector 1 iff the classifier is an SVM; hinge loss wraps the classifier in the adapter iff it lacks probabilities; SVM distance keeps the classifier; any success carries the label array unchanged; a non-SVM fails with the SVM message and any other selector with the unknown-type message |
| `NonconformityFactory.NotSvmMessage` | src/se/hb/jcp/nc/ClassificationNonconformityFunctionFactory.java:70-73 | the SVM-distance strategy name stands just before the message's final character |
| `NonconformityFactory.NotSvmMessageNamesStrategy` | src/se/hb/jcp/nc/ClassificationNonconformityFunctionFactory.java:69-73 | selector 1 with a non-SVM classifier fails with a message naming the second entry of the name table |
| `NonconformityFactory.GetInstance` | src/se/hb/jcp/nc/ClassificationNonconformityFunctionFactory.java:31-33 | the factory type has a single value, so the type itself carries the singleton promise: every call yields the same factory |

## Left out

- The parallel fork/join paths (`ClassifyAction`, `ClassifyAllAction`, `ClassifyPValuesAction`) are not modelled, because they exist for concurrency. `PARALLEL` is `true` in the source, so these paths are the ones that run. Each worker fills its own buffer copy and computes the same per-row result as the sequential paths, which are the ones modelled.
- Java serialization (`writeObject`/`readObject`) is object-stream I/O and is not modelled.
- The file, JSON and console output of the test run, its timing, and its floating-point average and accuracy ratios are I/O or floating point. The prior and observed measure aggregators fed at the end of the loop are not part of this model.
- `Util.calculatePValue` and the nonconformity function's `fitNew`/`calc_nc` lie outside the modelled files. They are function values, constrained only to give one score per row.
- `setNonconformityFunction` replaces the nonconformity function that every later prediction uses. The model keeps that function in the constant field `nc`, so it cannot change after construction, and this setter is not modelled.
- `getNonconformityFunction`, `getLabels` and `nativeStorageTemplate` are plain accessors or depend on library classes, and are not modelled.
- Colt matrices and row views, `like` and `like2D` are not modelled. A training matrix is a column count with a sequence of rows, and an instance is a row. The local buffer is an array of rows, and the buffer's zero-filled extra row stands for the empty row that `like` allocates.
- src/se/hb/jcp/bindings/libsvm/SparseDoubleMatrix2D.java is native calls and is not modelled. Neither are src/se/hb/jcp/cli/IOTools.java (JSON through a library) or src/se/hb/jcp/cp/measures/SumCriterion.java (floating-point accumulation).
- The package-private `SparseDoubleMatrix1D(int, Feature[])` view constructor is not modelled.
- Doubles are `real`s. NaN, -0.0 and rounding are not modelled, and the source only copies, compares and sorts them. `Arrays.sort` is modelled as an in-place insertion sort with the same contract: sorted and a permutation. The sorted result is unique, so no other property of the library sort is needed.
- Evaluate: the histogram arrays, local to the test run, are the sequence-valued fields of one `Stats` value that the loop reassigns, rather than Java arrays updated in place. Nothing else aliases them.
- Evaluate: its precondition asks for one p-value row per true label, each row at least as long as the label list, and every true label among the sorted labels. The source gets these from the test set and the classifier, and otherwise throws inside the loop.
- PredictPValuesInto: it requires buffers of equal length with at least one slot, which every caller in the source supplies. The instance's width is checked by its callers, where Colt's `assign` would throw.
- CalculateNonconformityScore: it requires buffers of equal, non-zero length, which every caller in the source supplies.
- SparseDoubleMatrix1D.Indexed: it requires a non-negative column count and at least as many values as indices. The source would throw instead.
- SparseDoubleMatrix1D.Empty: it requires a non-negative column count. The source's `setUp` would throw instead.
- SparseDoubleMatrix1D.SetQuick: nodes are values, so the source's sharing of node objects between the old and grown arrays, and node sharing after `assign`, are not modelled. Sharing of the node array itself is modelled.
- SparseDoubleMatrix1D.GetQuick: an index of `Integer.MAX_VALUE`, where `column+1` wraps around in Java, is not modelled because integers are unbounded here.
