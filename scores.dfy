/**
 * The value-level vocabulary of the transductive conformal classifier:
 * ordering of real sequences, the calibration scores a nonconformity
 * computation selects, the sorted label set and the label index map the
 * classifier builds from its targets, and the in-place sort it applies to
 * score arrays.
 */
module ConformalScores {

  /** Non-decreasing order. */
  predicate Sorted(s: seq<real>)
  {
    forall i, j :: 0 <= i < j < |s| ==> s[i] <= s[j]
  }

  /** Strictly increasing order: sorted and free of duplicates. */
  predicate StrictlyIncreasing(s: seq<real>)
  {
    forall i, j :: 0 <= i < j < |s| ==> s[i] < s[j]
  }

  // ---------------------------------------------------------------------
  // Ascending sort, as a value

  /** A sorted sequence starts with its least element. */
  lemma SortedHeadIsLeast(s: seq<real>, v: real)
    requires Sorted(s) && v in s
    ensures s[0] <= v
  {
  }

  /** Prefixing an element no larger than any of a sorted sequence keeps it sorted. */
  lemma SortedCons(h: real, t: seq<real>)
    requires Sorted(t)
    requires forall v :: v in t ==> h <= v
    ensures Sorted([h] + t)
  {
    var s := [h] + t;
    forall i, j | 0 <= i < j < |s| ensures s[i] <= s[j] {
      if i > 0 {
        assert s[i] == t[i - 1] && s[j] == t[j - 1];
      } else {
        assert s[j] == t[j - 1];
        assert t[j - 1] in t;
      }
    }
  }

  lemma MultisetOfCons(s: seq<real>)
    requires s != []
    ensures s == [s[0]] + s[1..]
    ensures multiset(s[1..]) == multiset(s) - multiset{s[0]}
  {
    assert s == [s[0]] + s[1..];
  }

  /** `x` inserted into the sorted `s` before the first element not below it. */
  function Insert(x: real, s: seq<real>): (r: seq<real>)
    requires Sorted(s)
    ensures Sorted(r)
    ensures multiset(r) == multiset(s) + multiset{x}
  {
    if s == [] || x <= s[0] then
      SortedCons(x, s);
      [x] + s
    else
      MultisetOfCons(s);
      var rest := Insert(x, s[1..]);
      InsertBound(x, s, rest);
      [s[0]] + rest
  }

  /** The head of a sorted `s` is no larger than anything inserted after it. */
  lemma InsertBound(x: real, s: seq<real>, rest: seq<real>)
    requires Sorted(s) && s != [] && s[0] < x
    requires Sorted(rest) && multiset(rest) == multiset(s[1..]) + multiset{x}
    ensures Sorted([s[0]] + rest)
  {
    forall v | v in rest ensures s[0] <= v {
      assert v in multiset(rest);
      if v != x {
        assert v in multiset(s[1..]);
        assert v in s;
      }
    }
    SortedCons(s[0], rest);
  }

  /** The ascending rearrangement of `s`. */
  function Sort(s: seq<real>): (r: seq<real>)
    ensures Sorted(r)
    ensures multiset(r) == multiset(s)
  {
    if s == [] then []
    else
      MultisetOfCons(s);
      Insert(s[0], Sort(s[1..]))
  }

  /** Two sorted sequences holding the same elements are equal: sorting has
      exactly one possible outcome. */
  lemma {:induction false} SortedUnique(a: seq<real>, b: seq<real>)
    requires Sorted(a) && Sorted(b)
    requires multiset(a) == multiset(b)
    ensures a == b
  {
    if a == [] || b == [] {
      assert |a| == |multiset(a)| == |multiset(b)| == |b|;
    } else {
      assert a[0] in multiset(b) && b[0] in multiset(a);
      assert a[0] in b && b[0] in a;
      SortedHeadIsLeast(b, a[0]);
      SortedHeadIsLeast(a, b[0]);
      var head := a[0];
      assert b[0] == head;
      MultisetOfCons(a);
      MultisetOfCons(b);
      var rest := multiset(a) - multiset{head};
      assert multiset(a[1..]) == rest;
      assert multiset(b[1..]) == rest;
      SortedTail(a);
      SortedTail(b);
      SortedUnique(a[1..], b[1..]);
    }
  }

  lemma SortedTail(s: seq<real>)
    requires Sorted(s) && s != []
    ensures Sorted(s[1..])
  {
  }

  /** Any sort of `s` yields `Sort(s)`. */
  lemma SortIsUnique(s: seq<real>, r: seq<real>)
    requires Sorted(r) && multiset(r) == multiset(s)
    ensures r == Sort(s)
  {
    SortedUnique(r, Sort(s));
  }

  // ---------------------------------------------------------------------
  // Calibration-score selection

  /** The scores of the rows among the first `n` whose label equals `target`, in row order. */
  function Matching(scores: seq<real>, labels: seq<real>, target: real, n: nat): (r: seq<real>)
    requires n <= |scores| && n <= |labels|
    ensures |r| <= n
  {
    if n == 0 then []
    else Matching(scores, labels, target, n - 1) + if labels[n - 1] == target then [scores[n - 1]] else []
  }

  /** The calibration scores: the scores of the first `n` rows, restricted to
      rows labelled `target` when the classification is label-conditional. */
  function Calibration(scores: seq<real>, labels: seq<real>, target: real, n: nat, conditional: bool)
    : (r: seq<real>)
    requires n <= |scores| && n <= |labels|
    ensures !conditional ==> r == scores[..n]
  {
    if conditional then Matching(scores, labels, target, n) else scores[..n]
  }

  /** The rows among the first `n` labelled `target`. */
  function RowsLabelled(labels: seq<real>, target: real, n: nat): set<nat>
    requires n <= |labels|
  {
    set i: nat | i < n && labels[i] == target
  }

  /** Label-conditional selection keeps one score per row labelled `target`. */
  lemma {:induction false} MatchingCount(scores: seq<real>, labels: seq<real>, target: real, n: nat)
    requires n <= |scores| && n <= |labels|
    ensures |Matching(scores, labels, target, n)| == |RowsLabelled(labels, target, n)|
  {
    if n == 0 {
      assert RowsLabelled(labels, target, n) == {};
    } else {
      MatchingCount(scores, labels, target, n - 1);
      MatchingStep(labels, target, n - 1);
    }
  }

  lemma MatchingStep(labels: seq<real>, target: real, i: nat)
    requires i < |labels|
    ensures var earlier := RowsLabelled(labels, target, i);
            i !in earlier &&
            RowsLabelled(labels, target, i + 1) == if labels[i] == target then earlier + {i} else earlier
  {
    var now := RowsLabelled(labels, target, i + 1);
    var earlier := RowsLabelled(labels, target, i);
    if labels[i] == target {
      forall j: nat | j in now ensures j in earlier + {i} {
      }
    } else {
      forall j: nat | j in now ensures j in earlier {
      }
    }
  }

  /** Every selected score is the score of a row labelled `target`. */
  lemma {:induction false} MatchingFromLabelledRows(scores: seq<real>, labels: seq<real>, target: real, n: nat)
    requires n <= |scores| && n <= |labels|
    ensures forall v :: v in Matching(scores, labels, target, n) ==>
              exists i :: 0 <= i < n && labels[i] == target && scores[i] == v
  {
    if n > 0 {
      MatchingFromLabelledRows(scores, labels, target, n - 1);
    }
  }

  /** When every row carries the hypothesised label, both selection modes agree. */
  lemma {:induction false} MatchingAllLabelled(scores: seq<real>, labels: seq<real>, target: real, n: nat)
    requires n <= |scores| && n <= |labels|
    requires forall i :: 0 <= i < n ==> labels[i] == target
    ensures Calibration(scores, labels, target, n, true) == Calibration(scores, labels, target, n, false)
  {
    if n > 0 {
      MatchingAllLabelled(scores, labels, target, n - 1);
      assert scores[..n] == scores[..n - 1] + [scores[n - 1]];
    }
  }

  // ---------------------------------------------------------------------
  // The label set and the label index map

  /** `v` added to the strictly increasing `s`, unless already present
      (a sorted-map key set after one more insertion). */
  function AddLabel(v: real, s: seq<real>): (r: seq<real>)
    requires StrictlyIncreasing(s)
    ensures StrictlyIncreasing(r)
    ensures forall u :: u in r <==> u in s || u == v
  {
    if s == [] || v < s[0] then [v] + s
    else if v == s[0] then s
    else
      assert s == [s[0]] + s[1..];
      var rest := AddLabel(v, s[1..]);
      assert forall k :: 0 <= k < |rest| ==> rest[k] in s[1..] || rest[k] == v;
      [s[0]] + rest
  }

  /** The distinct targets in ascending order. */
  function Labels(targets: seq<real>): (r: seq<real>)
    ensures StrictlyIncreasing(r)
    ensures forall u :: u in r <==> u in targets
  {
    if targets == [] then []
    else
      var n := |targets| - 1;
      assert targets == targets[..n] + [targets[n]];
      AddLabel(targets[n], Labels(targets[..n]))
  }

  /** The label index map after putting `targets[c] -> c` for every c in turn:
      each target is mapped to the position of its last occurrence. */
  function IndexMap(targets: seq<real>): (m: map<real, int>)
    ensures forall v :: v in m <==> v in targets
    ensures forall v :: v in m ==> 0 <= m[v] < |targets| && targets[m[v]] == v
    ensures forall v, j :: v in m && m[v] < j < |targets| ==> targets[j] != v
  {
    if targets == [] then map[]
    else
      var n := |targets| - 1;
      assert targets == targets[..n] + [targets[n]];
      IndexMap(targets[..n])[targets[n] := n]
  }

  /** The index map need not agree with positions in the label array: with
      targets 2, 1 the label 2 sits at position 1 of the label array but is
      mapped to 0. */
  lemma IndexMapIsNotRank()
    ensures var t := [2.0, 1.0];
            Labels(t) == [1.0, 2.0] && IndexMap(t)[2.0] == 0
  {
    var t := [2.0, 1.0];
    assert t[..1] == [2.0] && t[..0] == [];
    assert Labels(t[..1]) == AddLabel(2.0, []) == [2.0];
    assert Labels(t) == AddLabel(1.0, [2.0]) == [1.0, 2.0];
  }

  /** Repeated targets map past the end of the label array: with targets 1, 1
      there is one label, mapped to 1. */
  lemma IndexMapCanExceedLabels()
    ensures var t := [1.0, 1.0];
            |Labels(t)| == 1 && IndexMap(t)[1.0] == 1
  {
    var t := [1.0, 1.0];
    assert t[..1] == [1.0] && t[..0] == [];
    assert Labels(t[..1]) == AddLabel(1.0, []) == [1.0];
    assert Labels(t) == AddLabel(1.0, [1.0]) == [1.0];
  }

  // ---------------------------------------------------------------------
  // The in-place array sort

  /** The first `n` elements of `s` are in non-decreasing order. */
  predicate SortedPrefix(s: seq<real>, n: nat)
    requires n <= |s|
  {
    forall p, q :: 0 <= p < q < n ==> s[p] <= s[q]
  }

  /** Sorts `a` ascending in place (insertion sort). */
  method SortInPlace(a: array<real>)
    modifies a
    ensures Sorted(a[..])
    ensures multiset(a[..]) == multiset(old(a[..]))
  {
    for i := 0 to a.Length
      invariant SortedPrefix(a[..], i)
      invariant multiset(a[..]) == multiset(old(a[..]))
    {
      InsertLast(a, i);
    }
  }

  /** Moves `a[i]` down into the sorted prefix `a[..i]`. */
  method InsertLast(a: array<real>, i: nat)
    requires i < a.Length && SortedPrefix(a[..], i)
    modifies a
    ensures SortedPrefix(a[..], i + 1)
    ensures multiset(a[..]) == multiset(old(a[..]))
  {
    var j := i;
    while j > 0 && a[j - 1] > a[j]
      invariant 0 <= j <= i
      invariant forall p, q :: 0 <= p < q <= i && q != j ==> a[p] <= a[q]
      invariant 0 < j < i ==> a[j - 1] <= a[j + 1]
      invariant multiset(a[..]) == multiset(old(a[..]))
    {
      Swap(a, j - 1, j);
      j := j - 1;
    }
  }

  /** Exchanges two elements of `a`. */
  method Swap(a: array<real>, i: nat, j: nat)
    requires i < a.Length && j < a.Length
    modifies a
    ensures a[i] == old(a[j]) && a[j] == old(a[i])
    ensures forall k :: 0 <= k < a.Length && k != i && k != j ==> a[k] == old(a[k])
    ensures multiset(a[..]) == multiset(old(a[..]))
  {
    a[i], a[j] := a[j], a[i];
  }
}
