/**
 * The transductive conformal classifier. For a test instance `x` and every
 * candidate label it appends `(x, label)` to a copy of the training set,
 * scores every row with a nonconformity function trained on that extended
 * set, takes the last score as the test score and the others (optionally
 * only those of rows sharing the hypothesised label) as calibration scores,
 * sorts them, and turns the pair into a p-value.
 *
 * The nonconformity function (training a fresh copy, then scoring every row)
 * and the p-value formula are supplied as function values; they are fixed
 * when the classifier is built.
 */
module TransductiveCP {
  import opened Wrappers
  import opened ConformalScores

  /** One instance: its attribute values. */
  type Row = seq<real>

  /** A nonconformity function trained on the given rows and labels and then
      applied to the same rows: one score per row. */
  type ScoreFn = f: (seq<Row>, seq<real>) -> seq<real> | forall rows, labels :: |f(rows, labels)| == |rows|
    witness (rows: seq<Row>, labels: seq<real>) => seq(|rows|, _ => 0.0)

  /** The p-value of a test score against the sorted calibration scores. */
  type PValueRule = (real, seq<real>) -> real

  datatype Grid = Grid(columns: nat, rows: seq<Row>)

  /** A dense matrix: every row has `columns` entries. */
  type Matrix = g: Grid | forall r :: 0 <= r < |g.rows| ==> |g.rows[r]| == g.columns
    witness Grid(0, [])

  /** The runtime exceptions the classifier's public operations can raise. */
  datatype Exception = NullPointer | IndexOutOfBounds | IllegalArgument

  /** A prediction: the classifier's labels and one p-value per label. */
  datatype ConformalClassification = ConformalClassification(labels: seq<real>, pValues: seq<real>)

  /** A zero-filled row (a fresh buffer row). */
  function ZeroRow(columns: nat): (r: Row)
    ensures |r| == columns && forall k :: 0 <= k < columns ==> r[k] == 0.0
  {
    seq(columns, _ => 0.0)
  }

  /** The test score and the sorted calibration scores of the last row of
      `rows`/`labels`, the other rows forming the calibration set. */
  function NonconformityScores(nc: ScoreFn, rows: seq<Row>, labels: seq<real>, conditional: bool)
    : (r: (real, seq<real>))
    requires |rows| == |labels| >= 1
    ensures var scores := nc(rows, labels);
            var n := |rows| - 1;
            && r.0 == scores[n]
            && Sorted(r.1)
            && multiset(r.1) == multiset(Calibration(scores, labels, labels[n], n, conditional))
  {
    var scores := nc(rows, labels);
    var n := |rows| - 1;
    (scores[n], Sort(Calibration(scores, labels, labels[n], n, conditional)))
  }

  /** The p-value of `candidate` for instance `x` against the training rows and labels. */
  function LabelPValue(nc: ScoreFn, rule: PValueRule, rows: seq<Row>, labels: seq<real>, x: Row, candidate: real,
                       conditional: bool): real
    requires |rows| == |labels|
  {
    var r := NonconformityScores(nc, rows + [x], labels + [candidate], conditional);
    rule(r.0, r.1)
  }

  /** The p-values of instance `x`, one per entry of `classes`. */
  function PValues(nc: ScoreFn, rule: PValueRule, rows: seq<Row>, labels: seq<real>, classes: seq<real>, x: Row,
                   conditional: bool): (p: seq<real>)
    requires |rows| == |labels|
    ensures |p| == |classes|
  {
    seq(|classes|, i requires 0 <= i < |classes| => LabelPValue(nc, rule, rows, labels, x, classes[i], conditional))
  }

  /** The p-value of a candidate is the rule applied to the test score and any
      sorted arrangement of the selected calibration scores: how the scores are
      sorted does not matter. */
  lemma {:induction false} LabelPValueOfSortedScores(nc: ScoreFn, rule: PValueRule, rows: seq<Row>, labels: seq<real>,
                                                     x: Row, candidate: real, conditional: bool, sorted: seq<real>)
    requires |rows| == |labels|
    requires var scores := nc(rows + [x], labels + [candidate]);
             Sorted(sorted) && multiset(sorted) == multiset(Calibration(scores, labels + [candidate], candidate, |rows|, conditional))
    ensures LabelPValue(nc, rule, rows, labels, x, candidate, conditional)
            == rule(nc(rows + [x], labels + [candidate])[|rows|], sorted)
  {
    var scores := nc(rows + [x], labels + [candidate]);
    SortIsUnique(Calibration(scores, labels + [candidate], candidate, |rows|, conditional), sorted);
  }

  /** The `i`-th p-value is that of the `i`-th class taken as x's label: the rule
      applied to x's score and the sorted calibration scores selected for it. */
  lemma PValuesOfSortedScores(nc: ScoreFn, rule: PValueRule, rows: seq<Row>, labels: seq<real>, classes: seq<real>,
                              x: Row, conditional: bool, i: nat, sorted: seq<real>)
    requires |rows| == |labels| && i < |classes|
    requires var scores := nc(rows + [x], labels + [classes[i]]);
             Sorted(sorted) && multiset(sorted) == multiset(Calibration(scores, labels + [classes[i]], classes[i], |rows|, conditional))
    ensures PValues(nc, rule, rows, labels, classes, x, conditional)[i]
            == rule(nc(rows + [x], labels + [classes[i]])[|rows|], sorted)
  {
    LabelPValueOfSortedScores(nc, rule, rows, labels, x, classes[i], conditional, sorted);
  }

  /** The scores of a buffer, assembled from the test score and the sorted calibration scores. */
  lemma ScoresFromParts(nc: ScoreFn, rows: seq<Row>, labels: seq<real>, conditional: bool,
                        selected: seq<real>, sorted: seq<real>)
    requires |rows| == |labels| >= 1
    requires selected == Calibration(nc(rows, labels), labels, labels[|rows| - 1], |rows| - 1, conditional)
    requires sorted == Sort(selected)
    ensures NonconformityScores(nc, rows, labels, conditional) == (nc(rows, labels)[|rows| - 1], sorted)
  {
  }

  /** Without label conditioning, the calibration set is every training row;
      with it, exactly the training rows carrying the hypothesised label. */
  lemma CalibrationSize(nc: ScoreFn, rows: seq<Row>, labels: seq<real>, x: Row, candidate: real, conditional: bool)
    requires |rows| == |labels|
    ensures var r := NonconformityScores(nc, rows + [x], labels + [candidate], conditional);
            |r.1| == if conditional then |RowsLabelled(labels, candidate, |rows|)| else |rows|
  {
    var n := |rows|;
    var extended := labels + [candidate];
    var scores := nc(rows + [x], extended);
    var r := NonconformityScores(nc, rows + [x], extended, conditional);
    assert |r.1| == |multiset(r.1)| == |Calibration(scores, extended, candidate, n, conditional)|;
    if conditional {
      MatchingCount(scores, extended, candidate, n);
      assert RowsLabelled(extended, candidate, n) == RowsLabelled(labels, candidate, n);
    }
  }

  /** Every label-conditional calibration score is the score of a training row
      carrying the hypothesised label. */
  lemma ConditionalCalibrationFromLabel(nc: ScoreFn, rows: seq<Row>, labels: seq<real>, x: Row, candidate: real)
    requires |rows| == |labels|
    ensures var extended := labels + [candidate];
            var scores := nc(rows + [x], extended);
            forall v :: v in NonconformityScores(nc, rows + [x], extended, true).1 ==>
              exists i :: 0 <= i < |rows| && labels[i] == candidate && scores[i] == v
  {
    var extended := labels + [candidate];
    var scores := nc(rows + [x], extended);
    var r := NonconformityScores(nc, rows + [x], extended, true);
    MatchingFromLabelledRows(scores, extended, candidate, |rows|);
    forall v | v in r.1
      ensures exists i :: 0 <= i < |rows| && labels[i] == candidate && scores[i] == v
    {
      assert v in multiset(r.1);
      assert v in Matching(scores, extended, candidate, |rows|);
      var i :| 0 <= i < |rows| && extended[i] == candidate && scores[i] == v;
      assert labels[i] == extended[i];
    }
  }

  /** A fresh array holding the first `len` elements of `a` (a truncating copy). */
  method CopyOf(a: array<real>, len: nat) returns (b: array<real>)
    requires len <= a.Length
    ensures fresh(b)
    ensures b[..] == a[..len]
  {
    b := new real[len](k requires 0 <= k < len reads a => a[k]);
  }

  /** A fresh array holding the first `len` scores. */
  method CopyPrefix(scores: seq<real>, len: nat) returns (b: array<real>)
    requires len <= |scores|
    ensures fresh(b)
    ensures b[..] == scores[..len]
  {
    b := new real[len](k requires 0 <= k < len => scores[k]);
  }

  /** The scores of the first `n` rows whose label in `labels` is `target`, in row order. */
  method SelectMatching(scores: seq<real>, labels: seq<real>, target: real, n: nat) returns (selected: array<real>)
    requires n <= |scores| && n <= |labels|
    ensures fresh(selected)
    ensures selected[..] == Matching(scores, labels, target, n)
  {
    var buffer := new real[n];
    var c := 0;
    for i := 0 to n
      invariant c <= i
      invariant buffer[..c] == Matching(scores, labels, target, i)
    {
      if labels[i] == target {
        buffer[c] := scores[i];
        c := c + 1;
      }
    }
    selected := CopyOf(buffer, c);
  }

  /** Sorts the calibration scores in place; the result is the one sorted
      arrangement of the scores. */
  method SortCalibration(calibration: array<real>)
    modifies calibration
    ensures calibration[..] == Sort(old(calibration[..]))
  {
    ghost var selected := calibration[..];
    SortInPlace(calibration);
    SortIsUnique(selected, calibration[..]);
  }

  class TransductiveConformalClassifier {
    const nc: ScoreFn
    const pValueRule: PValueRule
    /** The distinct training targets, ascending. */
    const classes: seq<real>
    /** Each target mapped to the position of its last occurrence among the targets. */
    const classIndex: map<real, int>
    const useLabelConditionalCP: bool
    /** The training attributes; absent until a matrix is fitted. */
    var xtr: Option<Matrix>
    /** The training targets; absent until fitted. */
    var ytr: Option<seq<real>>

    /** Builds a classifier over the labels occurring in `targets`. */
    constructor (nc: ScoreFn, pValueRule: PValueRule, targets: seq<real>, useLabelConditionalCP: bool)
      ensures this.nc == nc && this.pValueRule == pValueRule
      ensures this.useLabelConditionalCP == useLabelConditionalCP
      ensures classes == Labels(targets) && classIndex == IndexMap(targets)
      ensures xtr == None && ytr == None
    {
      this.nc := nc;
      this.pValueRule := pValueRule;
      this.useLabelConditionalCP := useLabelConditionalCP;
      var labels, index := LabelSet(targets);
      classes := labels;
      classIndex := index;
      xtr := None;
      ytr := None;
    }

    /** Builds a classifier without label conditioning. */
    constructor Unconditional(nc: ScoreFn, pValueRule: PValueRule, targets: seq<real>)
      ensures this.nc == nc && this.pValueRule == pValueRule
      ensures !useLabelConditionalCP
      ensures classes == Labels(targets) && classIndex == IndexMap(targets)
      ensures xtr == None && ytr == None
    {
      this.nc := nc;
      this.pValueRule := pValueRule;
      useLabelConditionalCP := false;
      var labels, index := LabelSet(targets);
      classes := labels;
      classIndex := index;
      xtr := None;
      ytr := None;
    }

    /** Puts every target into a sorted map, target to position, then reads
        the keys out in order and sorts them once more. */
    static method LabelSet(targets: seq<real>) returns (labels: seq<real>, index: map<real, int>)
      ensures labels == Labels(targets)
      ensures index == IndexMap(targets)
    {
      index := map[];
      var keys: seq<real> := [];
      for c := 0 to |targets|
        invariant index == IndexMap(targets[..c])
        invariant keys == Labels(targets[..c])
      {
        assert targets[..c + 1] == targets[..c] + [targets[c]];
        index := index[targets[c] := c];
        keys := AddLabel(targets[c], keys);
      }
      assert targets[..|targets|] == targets;
      var a := new real[|keys|](i requires 0 <= i < |keys| => keys[i]);
      assert a[..] == keys;
      SortInPlace(a);
      SortIsUnique(keys, a[..]);
      assert Sorted(keys);
      SortIsUnique(keys, keys);
      labels := a[..];
    }

    /** Stores the training set. */
    method Fit(xtr: Option<Matrix>, ytr: Option<seq<real>>)
      modifies this
      ensures this.xtr == xtr && this.ytr == ytr
      ensures IsTrained() <==> xtr.Some?
      ensures AttributeCount() == if xtr.Some? then xtr.value.columns else -1
    {
      this.xtr := xtr;
      this.ytr := ytr;
    }

    function IsTrained(): (trained: bool)
      reads this
      ensures trained <==> AttributeCount() != -1
    {
      xtr.Some?
    }

    /** The number of attributes of the training set, or -1 before training. */
    function AttributeCount(): (n: int)
      reads this
      ensures n >= -1
      ensures n == -1 <==> xtr.None?
      ensures xtr.Some? ==> n == xtr.value.columns
    {
      if xtr.Some? then xtr.value.columns else -1
    }

    /** The exception copying the training set raises, if any: none is
        stored, or targets are missing or shorter than the attribute rows. */
    function BufferError(): (e: Option<Exception>)
      reads this
      ensures e.None? ==> IsTrained()
      ensures e.None? && |xtr.value.rows| > 0 ==> ytr.Some? && |ytr.value| >= |xtr.value.rows|
    {
      if xtr.None? then Some(NullPointer)
      else if |xtr.value.rows| == 0 then None
      else if ytr.None? then Some(NullPointer)
      else if |ytr.value| < |xtr.value.rows| then Some(IndexOutOfBounds)
      else None
    }

    /** The targets of the training rows. */
    function TrainingLabels(): (labels: seq<real>)
      reads this
      requires BufferError().None?
      ensures |labels| == |xtr.value.rows|
    {
      if |xtr.value.rows| == 0 then [] else ytr.value[..|xtr.value.rows|]
    }

    /** The p-values of `x` against the stored training set. */
    function InstancePValues(x: Row): (p: seq<real>)
      reads this
      requires BufferError().None?
    {
      PValues(nc, pValueRule, xtr.value.rows, TrainingLabels(), classes, x, useLabelConditionalCP)
    }

    /** A copy of the training set with one more, zero-filled, slot at the end. */
    method CreateLocalTrainingSet() returns (r: Result<(array<Row>, array<real>), Exception>)
      ensures r.Failure? <==> BufferError().Some?
      ensures r.Failure? ==> r.error == BufferError().value
      ensures r.Success? ==>
                var xBuf := r.value.0;
                var yBuf := r.value.1;
                var n := |xtr.value.rows|;
                && fresh(xBuf) && fresh(yBuf)
                && xBuf.Length == n + 1 && yBuf.Length == n + 1
                && xBuf[..n] == xtr.value.rows && yBuf[..n] == TrainingLabels()
                && xBuf[n] == ZeroRow(xtr.value.columns) && yBuf[n] == 0.0
    {
      if xtr.None? {
        return Failure(NullPointer);
      }
      var m := xtr.value;
      var n := |m.rows|;
      var xBuf := new Row[n + 1](_ => ZeroRow(m.columns));
      var yBuf := new real[n + 1](_ => 0.0);
      for row := 0 to n
        invariant xBuf[..row] == m.rows[..row] && xBuf[n] == ZeroRow(m.columns)
        invariant row == 0 || (ytr.Some? && |ytr.value| >= row && yBuf[..row] == ytr.value[..row])
        invariant yBuf[n] == 0.0
      {
        xBuf[row] := m.rows[row];
        if ytr.None? {
          return Failure(NullPointer);
        }
        if row >= |ytr.value| {
          return Failure(IndexOutOfBounds);
        }
        yBuf[row] := ytr.value[row];
        assert yBuf[..row + 1] == ytr.value[..row + 1];
      }
      assert xBuf[..n] == m.rows[..n] == m.rows;
      return Success((xBuf, yBuf));
    }

    /** The test score of the last buffer row and the sorted calibration scores. */
    method CalculateNonconformityScore(xBuf: array<Row>, yBuf: array<real>, conditional: bool)
      returns (ncScore: real, calibration: array<real>)
      requires xBuf.Length == yBuf.Length >= 1
      ensures fresh(calibration)
      ensures (ncScore, calibration[..]) == NonconformityScores(nc, xBuf[..], yBuf[..], conditional)
    {
      var rows, labels := xBuf[..], yBuf[..];
      var scores := nc(rows, labels);
      var n := |scores| - 1;
      ncScore := scores[n];
      var target := labels[n];
      if conditional {
        calibration := SelectMatching(scores, labels, target, n);
      } else {
        calibration := CopyPrefix(scores, n);
      }
      ghost var selected := calibration[..];
      SortCalibration(calibration);
      ScoresFromParts(nc, rows, labels, conditional, selected, calibration[..]);
      assert xBuf[..] == rows && yBuf[..] == labels;
    }

    /** Fills `pValues` with the p-value of every label for `x`, using the
        buffers `xBuf`/`yBuf`: their last slot receives `x` and, in turn, each
        label; the other slots are only read. A `pValues` shorter than the
        label list receives the p-values that fit, and the write of the next
        one fails with an index error. */
    method PredictPValuesInto(x: Row, pValues: array<real>, xBuf: array<Row>, yBuf: array<real>)
      returns (r: Outcome<Exception>)
      requires xBuf.Length >= 1 && yBuf.Length == xBuf.Length
      requires pValues != yBuf
      modifies xBuf, yBuf, pValues
      ensures r.Fail? <==> pValues.Length < |classes|
      ensures r.Fail? ==> r.error == IndexOutOfBounds
      ensures var last := xBuf.Length - 1;
              && xBuf[..last] == old(xBuf[..last]) && xBuf[last] == x
              && yBuf[..last] == old(yBuf[..last])
              && yBuf[last] == (if |classes| == 0 then old(yBuf[last])
                                else if r.Fail? then classes[pValues.Length]
                                else classes[|classes| - 1])
      ensures var written := if r.Fail? then pValues.Length else |classes|;
              && pValues[..written]
                 == PValues(nc, pValueRule, old(xBuf[..xBuf.Length - 1]), old(yBuf[..yBuf.Length - 1]), classes, x,
                            useLabelConditionalCP)[..written]
              && pValues[written..] == old(pValues[written..])
    {
      var last := xBuf.Length - 1;
      ghost var rows := xBuf[..last];
      ghost var labels := yBuf[..last];
      ghost var expected := PValues(nc, pValueRule, rows, labels, classes, x, useLabelConditionalCP);
      xBuf[last] := x;
      assert xBuf[..] == rows + [x];
      var i := 0;
      while i < |classes|
        invariant i <= |classes| && i <= pValues.Length
        invariant xBuf[..] == rows + [x] && yBuf[..last] == labels
        invariant yBuf[last] == (if i == 0 then old(yBuf[last]) else classes[i - 1])
        invariant pValues[..i] == expected[..i]
        invariant pValues[i..] == old(pValues[i..])
      {
        var p := CandidatePValue(xBuf, yBuf, classes[i]);
        if i == pValues.Length {
          assert xBuf[..last] == rows;
          return Fail(IndexOutOfBounds);
        }
        assert p == expected[i];
        pValues[i] := p;
        assert pValues[..i + 1] == pValues[..i] + [pValues[i]];
        i := i + 1;
      }
      assert xBuf[..last] == rows;
      return Pass;
    }

    /** The p-value of the instance in the last slot of `xBuf` under the hypothesis
        that its label is `candidate`, which is written into the last slot of `yBuf`. */
    method CandidatePValue(xBuf: array<Row>, yBuf: array<real>, candidate: real) returns (p: real)
      requires xBuf.Length >= 1 && yBuf.Length == xBuf.Length
      modifies yBuf
      ensures yBuf[..yBuf.Length - 1] == old(yBuf[..yBuf.Length - 1]) && yBuf[yBuf.Length - 1] == candidate
      ensures p == LabelPValue(nc, pValueRule, xBuf[..xBuf.Length - 1], old(yBuf[..yBuf.Length - 1]),
                               xBuf[xBuf.Length - 1], candidate, useLabelConditionalCP)
    {
      var last := xBuf.Length - 1;
      ghost var labels := yBuf[..last];
      yBuf[last] := candidate;
      assert yBuf[..] == labels + [candidate];
      assert xBuf[..] == xBuf[..last] + [xBuf[last]];
      var ncScore, calibration := CalculateNonconformityScore(xBuf, yBuf, useLabelConditionalCP);
      p := pValueRule(ncScore, calibration[..]);
    }

    /** The p-values of every row of `x`, one buffer reused for all rows. */
    method PredictPValuesBatch(x: Matrix) returns (r: Result<seq<seq<real>>, Exception>)
      ensures r.Failure? <==> BufferError().Some? || (|x.rows| > 0 && x.columns != xtr.value.columns)
      ensures r.Failure? && BufferError().Some? ==> r.error == BufferError().value
      ensures r.Failure? && BufferError().None? ==> r.error == IllegalArgument
      ensures r.Success? ==>
                && |r.value| == |x.rows|
                && forall i :: 0 <= i < |x.rows| ==> r.value[i] == InstancePValues(x.rows[i])
    {
      var buffers := CreateLocalTrainingSet();
      if buffers.Failure? {
        return Failure(buffers.error);
      }
      var xBuf := buffers.value.0;
      var yBuf := buffers.value.1;
      var n := |xtr.value.rows|;
      if |x.rows| > 0 && x.columns != xtr.value.columns {
        return Failure(IllegalArgument);
      }
      ghost var rows := xtr.value.rows;
      ghost var labels := TrainingLabels();
      ghost var expected := seq(|x.rows|, k requires 0 <= k < |x.rows| =>
                                PValues(nc, pValueRule, rows, labels, classes, x.rows[k], useLabelConditionalCP));
      var response: seq<seq<real>> := [];
      for i := 0 to |x.rows|
        invariant xBuf.Length == n + 1 && yBuf.Length == n + 1
        invariant xBuf[..n] == rows && yBuf[..n] == labels
        invariant response == expected[..i]
      {
        var pValues := new real[|classes|];
        var outcome := PredictPValuesInto(x.rows[i], pValues, xBuf, yBuf);
        assert pValues[..] == pValues[..|classes|] == expected[i];
        response := response + [pValues[..]];
        assert response == expected[..i + 1];
      }
      assert response == expected;
      return Success(response);
    }

    /** The prediction for `x` from the buffers `xBuf`/`yBuf`. */
    method PredictWithBuffers(x: Row, xBuf: array<Row>, yBuf: array<real>) returns (c: ConformalClassification)
      requires xBuf.Length >= 1 && yBuf.Length == xBuf.Length
      modifies xBuf, yBuf
      ensures c == ConformalClassification(classes,
                     PValues(nc, pValueRule, old(xBuf[..xBuf.Length - 1]), old(yBuf[..yBuf.Length - 1]), classes, x,
                             useLabelConditionalCP))
      ensures xBuf[..xBuf.Length - 1] == old(xBuf[..xBuf.Length - 1]) && yBuf[..yBuf.Length - 1] == old(yBuf[..yBuf.Length - 1])
    {
      var pValues := new real[|classes|];
      var outcome := PredictPValuesInto(x, pValues, xBuf, yBuf);
      assert pValues[..] == pValues[..|classes|];
      c := ConformalClassification(classes, pValues[..]);
    }

    /** The predictions for every row of `x`, one buffer reused for all rows. */
    method PredictBatch(x: Matrix) returns (r: Result<seq<ConformalClassification>, Exception>)
      ensures r.Failure? <==> BufferError().Some? || (|x.rows| > 0 && x.columns != xtr.value.columns)
      ensures r.Failure? && BufferError().Some? ==> r.error == BufferError().value
      ensures r.Failure? && BufferError().None? ==> r.error == IllegalArgument
      ensures r.Success? ==>
                && |r.value| == |x.rows|
                && forall i :: 0 <= i < |x.rows| ==>
                     r.value[i] == ConformalClassification(classes, InstancePValues(x.rows[i]))
    {
      var buffers := CreateLocalTrainingSet();
      if buffers.Failure? {
        return Failure(buffers.error);
      }
      var xBuf := buffers.value.0;
      var yBuf := buffers.value.1;
      var n := |xtr.value.rows|;
      if |x.rows| > 0 && x.columns != xtr.value.columns {
        return Failure(IllegalArgument);
      }
      ghost var rows := xtr.value.rows;
      ghost var labels := TrainingLabels();
      ghost var expected := seq(|x.rows|, k requires 0 <= k < |x.rows| =>
                                ConformalClassification(classes,
                                  PValues(nc, pValueRule, rows, labels, classes, x.rows[k], useLabelConditionalCP)));
      var predictions: seq<ConformalClassification> := [];
      for i := 0 to |x.rows|
        invariant xBuf.Length == n + 1 && yBuf.Length == n + 1
        invariant xBuf[..n] == rows && yBuf[..n] == labels
        invariant predictions == expected[..i]
      {
        var prediction := PredictWithBuffers(x.rows[i], xBuf, yBuf);
        assert prediction == expected[i];
        predictions := predictions + [prediction];
        assert predictions == expected[..i + 1];
      }
      assert predictions == expected;
      return Success(predictions);
    }

    /** The p-values of one instance, written into `pValues`, from a fresh copy of the training set. */
    method PredictPValuesTo(x: Row, pValues: array<real>) returns (r: Outcome<Exception>)
      modifies pValues
      ensures r.Fail? <==> BufferError().Some? || |x| != xtr.value.columns || pValues.Length < |classes|
      ensures r.Fail? && BufferError().Some? ==> r.error == BufferError().value
      ensures r.Fail? && BufferError().None? && |x| != xtr.value.columns ==> r.error == IllegalArgument
      ensures r.Fail? && BufferError().None? && |x| == xtr.value.columns ==> r.error == IndexOutOfBounds
      ensures r.Pass? ==> pValues[..|classes|] == InstancePValues(x)
      ensures r.Pass? ==> pValues[|classes|..] == old(pValues[|classes|..])
      ensures r.Fail? && BufferError().None? && |x| == xtr.value.columns ==>
                pValues[..] == InstancePValues(x)[..pValues.Length]
      ensures r.Fail? && (BufferError().Some? || |x| != xtr.value.columns) ==> pValues[..] == old(pValues[..])
    {
      var buffers := CreateLocalTrainingSet();
      if buffers.Failure? {
        return Fail(buffers.error);
      }
      var xBuf := buffers.value.0;
      var yBuf := buffers.value.1;
      if |x| != xtr.value.columns {
        return Fail(IllegalArgument);
      }
      r := PredictPValuesInto(x, pValues, xBuf, yBuf);
    }

    /** The p-values of one instance, from a fresh copy of the training set. */
    method PredictPValues(x: Row) returns (r: Result<seq<real>, Exception>)
      ensures r.Failure? <==> BufferError().Some? || |x| != xtr.value.columns
      ensures r.Failure? && BufferError().Some? ==> r.error == BufferError().value
      ensures r.Failure? && BufferError().None? ==> r.error == IllegalArgument
      ensures r.Success? ==> r.value == InstancePValues(x)
    {
      var response := new real[|classes|];
      var outcome := PredictPValuesTo(x, response);
      if outcome.Fail? {
        return Failure(outcome.error);
      }
      assert response[..] == response[..|classes|];
      return Success(response[..]);
    }

    /** The prediction for one instance. */
    method Predict(x: Row) returns (r: Result<ConformalClassification, Exception>)
      ensures r.Failure? <==> BufferError().Some? || |x| != xtr.value.columns
      ensures r.Failure? && BufferError().Some? ==> r.error == BufferError().value
      ensures r.Failure? && BufferError().None? ==> r.error == IllegalArgument
      ensures r.Success? ==> r.value == ConformalClassification(classes, InstancePValues(x))
    {
      var pValues := PredictPValues(x);
      if pValues.Failure? {
        return Failure(pValues.error);
      }
      return Success(ConformalClassification(classes, pValues.value));
    }
  }
}
