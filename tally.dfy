/**
 * The evaluation tally of the command-line test run: for every test instance
 * it counts the labels whose p-value reaches the significance level (the size
 * of the prediction set), locates the instance's true class among the sorted
 * test labels, and increments the histograms of predictions and of correct
 * predictions per set size, per true class, and per class and set size.
 */
module EvaluationTally {
  import opened ConformalScores

  /** The number of labels strictly below `y` (the size of the head set below `y`). */
  function ClassIndex(classes: seq<real>, y: real): (k: nat)
    ensures k <= |classes|
    ensures y in classes ==> k < |classes|
  {
    if classes == [] then 0
    else
      var last := classes[|classes| - 1];
      ClassIndex(classes[..|classes| - 1], y) + if last < y then 1 else 0
  }

  /** The number of the first `count` labels whose p-value is at least the significance level. */
  function SetSize(pValues: seq<real>, count: nat, significance: real): (n: nat)
    requires count <= |pValues|
    ensures n <= count
  {
    if count == 0 then 0
    else SetSize(pValues, count - 1, significance) + if pValues[count - 1] >= significance then 1 else 0
  }

  /** The tally's counters after some number of instances. */
  datatype Stats = Stats(
    correct: int,
    predictionsAtSize: seq<int>,
    correctAtSize: seq<int>,
    predictionsForClass: seq<int>,
    correctForClass: seq<int>,
    predictionsForClassAtSize: seq<seq<int>>,
    correctForClassAtSize: seq<seq<int>>)

  /** The counters have the dimensions the tally allocates for `classes` labels:
      one slot per set size 0..classes, one row per class. */
  predicate Shaped(s: Stats, classes: nat)
  {
    && |s.predictionsAtSize| == classes + 1
    && |s.correctAtSize| == classes + 1
    && |s.predictionsForClass| == classes
    && |s.correctForClass| == classes
    && |s.predictionsForClassAtSize| == classes
    && |s.correctForClassAtSize| == classes
    && (forall c :: 0 <= c < classes ==> |s.predictionsForClassAtSize[c]| == classes + 1)
    && (forall c :: 0 <= c < classes ==> |s.correctForClassAtSize[c]| == classes + 1)
  }

  function Zeros(n: nat): seq<int>
  {
    seq(n, _ => 0)
  }

  /** All counters zero. */
  function Initial(classes: nat): (s: Stats)
    ensures Shaped(s, classes)
  {
    Stats(0, Zeros(classes + 1), Zeros(classes + 1), Zeros(classes), Zeros(classes),
          seq(classes, _ => Zeros(classes + 1)), seq(classes, _ => Zeros(classes + 1)))
  }

  function Bump(s: seq<int>, k: nat, d: int): seq<int>
    requires k < |s|
  {
    s[k := s[k] + d]
  }

  /** The counters after one more instance with prediction-set size `size`,
      true-class index `ci`, and `hit` telling whether the true class is in the set. */
  function Record(s: Stats, classes: nat, size: nat, ci: nat, hit: bool): (r: Stats)
    requires Shaped(s, classes) && size <= classes && ci < classes
    ensures Shaped(r, classes)
  {
    var counted := s.(
      predictionsAtSize := Bump(s.predictionsAtSize, size, 1),
      predictionsForClass := Bump(s.predictionsForClass, ci, 1),
      predictionsForClassAtSize := s.predictionsForClassAtSize[ci := Bump(s.predictionsForClassAtSize[ci], size, 1)]);
    if !hit then counted
    else counted.(
      correct := s.correct + 1,
      correctAtSize := Bump(s.correctAtSize, size, 1),
      correctForClass := Bump(s.correctForClass, ci, 1),
      correctForClassAtSize := s.correctForClassAtSize[ci := Bump(s.correctForClassAtSize[ci], size, 1)])
  }

  /** What the tally loop is given: one p-value row per test label, each row
      covering every test label, and every true label among the sorted labels. */
  predicate WellFormedInput(pValues: seq<seq<real>>, y: seq<real>, classes: seq<real>)
  {
    && |pValues| == |y|
    && StrictlyIncreasing(classes)
    && (forall i :: 0 <= i < |y| ==> y[i] in classes)
    && (forall i :: 0 <= i < |pValues| ==> |pValues[i]| >= |classes|)
  }

  /** Whether instance `i`'s true class is in its prediction set. */
  predicate Hit(pValues: seq<seq<real>>, y: seq<real>, classes: seq<real>, significance: real, i: nat)
    requires WellFormedInput(pValues, y, classes) && i < |y|
  {
    pValues[i][ClassIndex(classes, y[i])] >= significance
  }

  /** The counters after the first `n` instances. */
  function TallyOf(pValues: seq<seq<real>>, y: seq<real>, classes: seq<real>, significance: real, n: nat)
    : (s: Stats)
    requires WellFormedInput(pValues, y, classes) && n <= |y|
    ensures Shaped(s, |classes|)
  {
    if n == 0 then Initial(|classes|)
    else
      var i := n - 1;
      Record(TallyOf(pValues, y, classes, significance, i), |classes|,
             SetSize(pValues[i], |classes|, significance), ClassIndex(classes, y[i]),
             Hit(pValues, y, classes, significance, i))
  }

  function Sum(s: seq<int>): int
  {
    if s == [] then 0 else Sum(s[..|s| - 1]) + s[|s| - 1]
  }

  /** The size of one instance's prediction set: how many of the first
      `count` labels have a p-value at least the significance level. */
  method PredictionSetSize(pValues: seq<real>, count: nat, significance: real) returns (predictionSize: nat)
    requires count <= |pValues|
    ensures predictionSize == SetSize(pValues, count, significance)
  {
    predictionSize := 0;
    var c := 0;
    while c < count
      invariant 0 <= c <= count
      invariant predictionSize == SetSize(pValues, c, significance)
    {
      if pValues[c] >= significance {
        predictionSize := predictionSize + 1;
      }
      c := c + 1;
    }
  }

  /** One more instance applies Record to the counters. */
  lemma TallyStep(pValues: seq<seq<real>>, y: seq<real>, classes: seq<real>, significance: real, i: nat)
    requires WellFormedInput(pValues, y, classes) && i < |y|
    ensures TallyOf(pValues, y, classes, significance, i + 1)
            == Record(TallyOf(pValues, y, classes, significance, i), |classes|,
                      SetSize(pValues[i], |classes|, significance), ClassIndex(classes, y[i]),
                      pValues[i][ClassIndex(classes, y[i])] >= significance)
  {
  }

  /** The counter increments for one instance with prediction-set size
      `predictionSize` and true-class index `classIndex`. */
  method CountInstance(s: Stats, size: nat, predictionSize: nat, classIndex: nat, hit: bool)
    returns (r: Stats)
    requires Shaped(s, size) && predictionSize <= size && classIndex < size
    ensures r == Record(s, size, predictionSize, classIndex, hit)
  {
    r := s;
    r := r.(predictionsAtSize := r.predictionsAtSize[predictionSize := r.predictionsAtSize[predictionSize] + 1]);
    r := r.(predictionsForClass := r.predictionsForClass[classIndex := r.predictionsForClass[classIndex] + 1]);
    var row := r.predictionsForClassAtSize[classIndex];
    r := r.(predictionsForClassAtSize := r.predictionsForClassAtSize[classIndex := row[predictionSize := row[predictionSize] + 1]]);
    if hit {
      r := r.(correct := r.correct + 1);
      r := r.(correctAtSize := r.correctAtSize[predictionSize := r.correctAtSize[predictionSize] + 1]);
      r := r.(correctForClass := r.correctForClass[classIndex := r.correctForClass[classIndex] + 1]);
      var hits := r.correctForClassAtSize[classIndex];
      r := r.(correctForClassAtSize := r.correctForClassAtSize[classIndex := hits[predictionSize := hits[predictionSize] + 1]]);
    }
  }

  /** The per-instance counting loop of the test run, over the p-value matrix
      `pValues` and the true labels `y`; `classes` are the sorted distinct
      test labels. The histogram arrays, local to the run, are the
      sequence-valued fields of one `Stats` variable. */
  method Evaluate(pValues: seq<seq<real>>, y: seq<real>, classes: seq<real>, significance: real)
    returns (s: Stats)
    requires WellFormedInput(pValues, y, classes)
    ensures s == TallyOf(pValues, y, classes, significance, |y|)
  {
    s := Initial(|classes|);
    var i := 0;
    while i < |pValues|
      invariant 0 <= i <= |pValues|
      invariant s == TallyOf(pValues, y, classes, significance, i)
    {
      var classIndex := ClassIndex(classes, y[i]);
      var predictionSize := PredictionSetSize(pValues[i], |classes|, significance);
      TallyStep(pValues, y, classes, significance, i);
      s := CountInstance(s, |classes|, predictionSize, classIndex, pValues[i][classIndex] >= significance);
      i := i + 1;
    }
  }

  // ---------------------------------------------------------------------
  // What the counters mean

  /** A sorted label array locates a label by counting the labels below it:
      the head-set size is the label's position. */
  lemma {:induction false} ClassIndexIsPosition(classes: seq<real>, k: nat)
    requires StrictlyIncreasing(classes) && k < |classes|
    ensures ClassIndex(classes, classes[k]) == k
  {
    var n := |classes| - 1;
    var prefix := classes[..n];
    if k < n {
      assert prefix[k] == classes[k];
      ClassIndexIsPosition(prefix, k);
      assert classes[n] > classes[k];
    } else {
      ClassIndexCountsBelow(prefix, classes[k]);
    }
  }

  /** Every label of a prefix lies below `y`, so all of them are counted. */
  lemma {:induction false} ClassIndexCountsBelow(classes: seq<real>, y: real)
    requires forall j :: 0 <= j < |classes| ==> classes[j] < y
    ensures ClassIndex(classes, y) == |classes|
  {
    if classes != [] {
      ClassIndexCountsBelow(classes[..|classes| - 1], y);
    }
  }

  /** An instance is counted as correct exactly when the p-value of its
      true label reaches the significance level. */
  lemma HitIsTrueLabelInSet(pValues: seq<seq<real>>, y: seq<real>, classes: seq<real>, significance: real,
                            i: nat, k: nat)
    requires WellFormedInput(pValues, y, classes) && i < |y|
    requires k < |classes| && classes[k] == y[i]
    ensures Hit(pValues, y, classes, significance, i) <==> pValues[i][k] >= significance
  {
    ClassIndexIsPosition(classes, k);
  }

  /** The prediction-set size is the number of labels whose p-value reaches the level. */
  lemma {:induction false} SetSizeCounts(pValues: seq<real>, count: nat, significance: real)
    requires count <= |pValues|
    ensures SetSize(pValues, count, significance) == |set c | 0 <= c < count && pValues[c] >= significance|
  {
    var included := set c | 0 <= c < count && pValues[c] >= significance;
    if count == 0 {
      assert included == {};
    } else {
      var m := count - 1;
      var earlier := set c | 0 <= c < m && pValues[c] >= significance;
      SetSizeCounts(pValues, m, significance);
      if pValues[m] >= significance {
        assert included == earlier + {m};
      } else {
        assert included == earlier;
      }
    }
  }

  /** The instances among the first `n` whose true label is in the prediction set. */
  ghost function CorrectInstances(pValues: seq<seq<real>>, y: seq<real>, classes: seq<real>, significance: real,
                                  n: nat): set<nat>
    requires WellFormedInput(pValues, y, classes) && n <= |y|
  {
    set i: nat | i < n && Hit(pValues, y, classes, significance, i)
  }

  /** `correct` counts exactly the instances whose true label is in the prediction set. */
  lemma {:induction false} CorrectCountsHits(pValues: seq<seq<real>>, y: seq<real>, classes: seq<real>,
                                             significance: real, n: nat)
    requires WellFormedInput(pValues, y, classes) && n <= |y|
    ensures TallyOf(pValues, y, classes, significance, n).correct
            == |CorrectInstances(pValues, y, classes, significance, n)|
  {
    if n == 0 {
      assert CorrectInstances(pValues, y, classes, significance, n) == {};
    } else {
      var i := n - 1;
      CorrectCountsHits(pValues, y, classes, significance, i);
      CorrectStep(pValues, y, classes, significance, i);
      CorrectInstancesStep(pValues, y, classes, significance, i);
      var earlier := CorrectInstances(pValues, y, classes, significance, i);
      if Hit(pValues, y, classes, significance, i) {
        assert |earlier + {i}| == |earlier| + 1;
      }
    }
  }

  /** The correct instances among the first `i + 1` are those among the first
      `i`, plus instance `i` on a hit. */
  lemma CorrectInstancesStep(pValues: seq<seq<real>>, y: seq<real>, classes: seq<real>, significance: real,
                             i: nat)
    requires WellFormedInput(pValues, y, classes) && i < |y|
    ensures var earlier := CorrectInstances(pValues, y, classes, significance, i);
            i !in earlier &&
            CorrectInstances(pValues, y, classes, significance, i + 1)
            == if Hit(pValues, y, classes, significance, i) then earlier + {i} else earlier
  {
    var now := CorrectInstances(pValues, y, classes, significance, i + 1);
    var earlier := CorrectInstances(pValues, y, classes, significance, i);
    if Hit(pValues, y, classes, significance, i) {
      forall j: nat | j in now ensures j in earlier + {i} {
      }
    } else {
      forall j: nat | j in now ensures j in earlier {
      }
    }
  }

  /** One more instance raises `correct` by one exactly on a hit. */
  lemma CorrectStep(pValues: seq<seq<real>>, y: seq<real>, classes: seq<real>, significance: real, i: nat)
    requires WellFormedInput(pValues, y, classes) && i < |y|
    ensures TallyOf(pValues, y, classes, significance, i + 1).correct
            == TallyOf(pValues, y, classes, significance, i).correct
               + if Hit(pValues, y, classes, significance, i) then 1 else 0
  {
    TallyStep(pValues, y, classes, significance, i);
  }

  lemma {:induction false} SumZeros(n: nat)
    ensures Sum(Zeros(n)) == 0
  {
    if n > 0 {
      assert Zeros(n)[..n - 1] == Zeros(n - 1);
      SumZeros(n - 1);
    }
  }

  lemma {:induction false} SumBump(s: seq<int>, k: nat, d: int)
    requires k < |s|
    ensures Sum(Bump(s, k, d)) == Sum(s) + d
  {
    var n := |s| - 1;
    var b := Bump(s, k, d);
    if k < n {
      assert b[..n] == Bump(s[..n], k, d);
      SumBump(s[..n], k, d);
    } else {
      assert b[..n] == s[..n];
    }
  }

  /** The histograms partition `n` instances: each set-size histogram and each
      per-class histogram sums to `n` (or to `correct`), and each row of a
      per-class, per-size histogram sums to that class's count. */
  predicate Balanced(s: Stats, classes: nat, n: int)
    requires Shaped(s, classes)
  {
    && Sum(s.predictionsAtSize) == n
    && Sum(s.predictionsForClass) == n
    && Sum(s.correctAtSize) == s.correct
    && Sum(s.correctForClass) == s.correct
    && (forall c :: 0 <= c < classes ==> Sum(s.predictionsForClassAtSize[c]) == s.predictionsForClass[c])
    && (forall c :: 0 <= c < classes ==> Sum(s.correctForClassAtSize[c]) == s.correctForClass[c])
  }

  /** No counter is negative and no histogram counts more correct predictions
      than predictions. */
  predicate Bounded(s: Stats, classes: nat)
    requires Shaped(s, classes)
  {
    && 0 <= s.correct
    && (forall k :: 0 <= k <= classes ==> 0 <= s.correctAtSize[k] <= s.predictionsAtSize[k])
    && (forall c :: 0 <= c < classes ==> 0 <= s.correctForClass[c] <= s.predictionsForClass[c])
    && (forall c, k :: 0 <= c < classes && 0 <= k <= classes ==>
          0 <= s.correctForClassAtSize[c][k] <= s.predictionsForClassAtSize[c][k])
  }

  /** Recording one instance keeps the histograms balanced, one instance more. */
  lemma RecordBalanced(s: Stats, classes: nat, size: nat, ci: nat, hit: bool, n: int)
    requires Shaped(s, classes) && size <= classes && ci < classes
    requires Balanced(s, classes, n)
    ensures Balanced(Record(s, classes, size, ci, hit), classes, n + 1)
  {
    SumBump(s.predictionsAtSize, size, 1);
    SumBump(s.predictionsForClass, ci, 1);
    SumBump(s.predictionsForClassAtSize[ci], size, 1);
    if hit {
      SumBump(s.correctAtSize, size, 1);
      SumBump(s.correctForClass, ci, 1);
      SumBump(s.correctForClassAtSize[ci], size, 1);
    }
  }

  /** Recording one instance keeps every correct count within its prediction count. */
  lemma RecordBounded(s: Stats, classes: nat, size: nat, ci: nat, hit: bool)
    requires Shaped(s, classes) && size <= classes && ci < classes
    requires Bounded(s, classes)
    ensures Bounded(Record(s, classes, size, ci, hit), classes)
  {
  }

  /** The histograms after `n` instances partition those `n` instances. */
  lemma {:induction false} TallyTotals(pValues: seq<seq<real>>, y: seq<real>, classes: seq<real>,
                                       significance: real, n: nat)
    requires WellFormedInput(pValues, y, classes) && n <= |y|
    ensures Balanced(TallyOf(pValues, y, classes, significance, n), |classes|, n)
  {
    if n == 0 {
      SumZeros(|classes| + 1);
      SumZeros(|classes|);
    } else {
      var i := n - 1;
      TallyTotals(pValues, y, classes, significance, i);
      TallyStep(pValues, y, classes, significance, i);
      RecordBalanced(TallyOf(pValues, y, classes, significance, i), |classes|,
                     SetSize(pValues[i], |classes|, significance), ClassIndex(classes, y[i]),
                     pValues[i][ClassIndex(classes, y[i])] >= significance, i);
    }
  }

  /** After `n` instances, at most `n` are correct and every correct count is
      within its prediction count. */
  lemma {:induction false} TallyBounds(pValues: seq<seq<real>>, y: seq<real>, classes: seq<real>,
                                       significance: real, n: nat)
    requires WellFormedInput(pValues, y, classes) && n <= |y|
    ensures var t := TallyOf(pValues, y, classes, significance, n);
            Bounded(t, |classes|) && t.correct <= n
  {
    if n > 0 {
      var i := n - 1;
      TallyBounds(pValues, y, classes, significance, i);
      TallyStep(pValues, y, classes, significance, i);
      RecordBounded(TallyOf(pValues, y, classes, significance, i), |classes|,
                    SetSize(pValues[i], |classes|, significance), ClassIndex(classes, y[i]),
                    pValues[i][ClassIndex(classes, y[i])] >= significance);
      CorrectStep(pValues, y, classes, significance, i);
    }
  }
}
