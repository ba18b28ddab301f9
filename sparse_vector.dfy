/**
 * The liblinear sparse vector: a logical vector of `size` cells stored as an
 * array of (index, value) feature nodes, where a node's index is the cell's
 * column plus one (liblinear numbers features from 1). A cell that no node
 * names reads as 0.0.
 */
module LiblinearSparse {
  import opened Wrappers

  /** A liblinear feature node: a 1-based feature index and its value. */
  datatype FeatureNode = FeatureNode(index: int, value: real)

  /** The exception `assign` throws when the sizes differ. */
  datatype Exception = IllegalArgument

  // ---------------------------------------------------------------------
  // Specification of the node sequence
  // ---------------------------------------------------------------------

  /** Position of the first node carrying `index`, or |ns| if there is none. */
  function Find(ns: seq<FeatureNode>, index: int): (p: nat)
    ensures p <= |ns|
    ensures forall j :: 0 <= j < p ==> ns[j].index != index
    ensures p < |ns| ==> ns[p].index == index
  {
    if ns == [] then 0
    else if ns[0].index == index then 0
    else 1 + Find(ns[1..], index)
  }

  /** The value the node sequence gives to the cell whose 1-based index is `index`. */
  function Lookup(ns: seq<FeatureNode>, index: int): real
  {
    var p := Find(ns, index);
    if p < |ns| then ns[p].value else 0.0
  }

  /** Position before the first node whose index is not below `index`
      (where a new node for `index` is placed). */
  function InsertPos(ns: seq<FeatureNode>, index: int): (p: nat)
    ensures p <= |ns|
    ensures forall j :: 0 <= j < p ==> ns[j].index < index
    ensures p < |ns| ==> ns[p].index >= index
  {
    if ns == [] || ns[0].index >= index then 0
    else 1 + InsertPos(ns[1..], index)
  }

  /** The node sequence after setting the cell with 1-based index `index` to `v`:
      an existing node is updated in place (even to zero); otherwise a non-zero
      value gets a new node at its insertion position, and a zero is dropped. */
  function Assigned(ns: seq<FeatureNode>, index: int, v: real): seq<FeatureNode>
  {
    var p := Find(ns, index);
    if p < |ns| then ns[p := FeatureNode(index, v)]
    else if v != 0.0 then
      var q := InsertPos(ns, index);
      ns[..q] + [FeatureNode(index, v)] + ns[q..]
    else ns
  }

  /** Node indices strictly increase along the sequence. */
  predicate StrictlyIncreasing(ns: seq<FeatureNode>)
  {
    forall i, j :: 0 <= i < j < |ns| ==> ns[i].index < ns[j].index
  }

  /** The nodes for a dense value array: one node per value, index i+1. */
  function DenseNodes(values: seq<real>): (ns: seq<FeatureNode>)
    ensures |ns| == |values|
    ensures forall i :: 0 <= i < |values| ==> ns[i] == FeatureNode(i + 1, values[i])
  {
    seq(|values|, i requires 0 <= i < |values| => FeatureNode(i + 1, values[i]))
  }

  /** The nodes for parallel index and value lists: node i has index
      `indices[i] + 1` and value `values[i]`. */
  function IndexedNodes(indices: seq<int>, values: seq<real>): (ns: seq<FeatureNode>)
    requires |values| >= |indices|
    ensures |ns| == |indices|
    ensures forall i :: 0 <= i < |indices| ==> ns[i] == FeatureNode(indices[i] + 1, values[i])
  {
    seq(|indices|, i requires 0 <= i < |indices| => FeatureNode(indices[i] + 1, values[i]))
  }

  /** The non-zero cells of a dense vector, in ascending column order, as
      parallel column and value lists (what Colt's getNonZeros reports). */
  function NonZeros(values: seq<real>): (r: (seq<int>, seq<real>))
    ensures |r.0| == |r.1|
    ensures forall k :: 0 <= k < |r.0| ==> 0 <= r.0[k] < |values| && r.1[k] == values[r.0[k]] && r.1[k] != 0.0
    ensures forall k, l :: 0 <= k < l < |r.0| ==> r.0[k] < r.0[l]
    ensures forall c :: 0 <= c < |values| && values[c] != 0.0 ==> c in r.0
  {
    if values == [] then ([], [])
    else
      var rest := NonZeros(values[..|values| - 1]);
      var c := |values| - 1;
      if values[c] != 0.0 then (rest.0 + [c], rest.1 + [values[c]]) else rest
  }

  // ---------------------------------------------------------------------
  // Laws of the specification
  // ---------------------------------------------------------------------

  /** After setting a cell, reading it yields the new value. */
  lemma {:induction false} LookupAssignedSame(ns: seq<FeatureNode>, index: int, v: real)
    ensures Lookup(Assigned(ns, index, v), index) == v
  {
    var p := Find(ns, index);
    var r := Assigned(ns, index, v);
    if p < |ns| {
      FindFirstMatch(r, index, p);
    } else if v != 0.0 {
      var q := InsertPos(ns, index);
      FindFirstMatch(r, index, q);
    }
  }

  /** Setting a cell leaves every other cell as it was. */
  lemma LookupAssignedOther(ns: seq<FeatureNode>, index: int, v: real, other: int)
    requires other != index
    ensures Lookup(Assigned(ns, index, v), other) == Lookup(ns, other)
  {
    var p := Find(ns, index);
    if p < |ns| {
      LookupUpdatedOther(ns, p, index, v, other);
    } else if v != 0.0 {
      LookupInsertedOther(ns, InsertPos(ns, index), index, v, other);
    }
  }

  /** Overwriting the node at `p` leaves the cells of other indices as they were. */
  lemma LookupUpdatedOther(ns: seq<FeatureNode>, p: nat, index: int, v: real, other: int)
    requires p < |ns| && ns[p].index == index && other != index
    ensures Lookup(ns[p := FeatureNode(index, v)], other) == Lookup(ns, other)
  {
    var r := ns[p := FeatureNode(index, v)];
    var f := Find(ns, other);
    if f < |ns| {
      FindFirstMatch(r, other, f);
    } else {
      FindNone(r, other);
    }
  }

  /** Inserting a node for `index` at `q` leaves the cells of other indices as they were. */
  lemma LookupInsertedOther(ns: seq<FeatureNode>, q: nat, index: int, v: real, other: int)
    requires q <= |ns| && other != index
    ensures Lookup(ns[..q] + [FeatureNode(index, v)] + ns[q..], other) == Lookup(ns, other)
  {
    var r := ns[..q] + [FeatureNode(index, v)] + ns[q..];
    assert forall j :: 0 <= j < q ==> r[j] == ns[j];
    assert forall j :: q < j < |r| ==> r[j] == ns[j - 1];
    var f := Find(ns, other);
    if f < |ns| {
      FindFirstMatch(r, other, if f < q then f else f + 1);
    } else {
      FindNone(r, other);
    }
  }

  /** The node count grows by one exactly when an absent cell gets a non-zero value. */
  lemma AssignedLength(ns: seq<FeatureNode>, index: int, v: real)
    ensures Find(ns, index) < |ns| ==> |Assigned(ns, index, v)| == |ns|
    ensures Find(ns, index) == |ns| && v == 0.0 ==> Assigned(ns, index, v) == ns
    ensures Find(ns, index) == |ns| && v != 0.0 ==> |Assigned(ns, index, v)| == |ns| + 1
  {
  }

  /** Setting a cell keeps strictly increasing node indices strictly increasing. */
  lemma AssignedKeepsOrder(ns: seq<FeatureNode>, index: int, v: real)
    requires StrictlyIncreasing(ns)
    ensures StrictlyIncreasing(Assigned(ns, index, v))
  {
    var p := Find(ns, index);
    var r := Assigned(ns, index, v);
    if p == |ns| && v != 0.0 {
      var q := InsertPos(ns, index);
      assert forall j :: 0 <= j < q ==> r[j] == ns[j];
      assert r[q].index == index;
      assert forall j :: q < j < |r| ==> r[j] == ns[j - 1];
      assert q < |ns| ==> ns[q].index > index;
      forall i, j | 0 <= i < j < |r| ensures r[i].index < r[j].index {
        if j == q {
        } else if i == q {
          assert ns[j - 1].index >= ns[q].index;
        } else if i < q < j {
        }
      }
    }
  }

  /** The nodes built from a dense vector's non-zeros give every cell its value. */
  lemma NonZeroNodesAgree(values: seq<real>, c: int)
    requires 0 <= c < |values|
    ensures var nz := NonZeros(values);
            Lookup(IndexedNodes(nz.0, nz.1), c + 1) == values[c]
  {
    var columns := NonZeros(values).0;
    if values[c] != 0.0 {
      assert c in columns;
      var k :| 0 <= k < |columns| && columns[k] == c;
      NonZeroNodeFound(values, c, k);
    } else {
      ZeroCellHasNoNode(values, c);
    }
  }

  /** A zero cell has no node, so it reads as zero. */
  lemma ZeroCellHasNoNode(values: seq<real>, c: int)
    requires 0 <= c < |values| && values[c] == 0.0
    ensures var nz := NonZeros(values);
            Lookup(IndexedNodes(nz.0, nz.1), c + 1) == 0.0
  {
    var nz := NonZeros(values);
    ZeroCellNotListed(values, c);
    NoNodeForColumn(nz.0, nz.1, c);
  }

  /** A zero cell is not among the non-zero columns. */
  lemma ZeroCellNotListed(values: seq<real>, c: int)
    requires 0 <= c < |values| && values[c] == 0.0
    ensures forall k :: 0 <= k < |NonZeros(values).0| ==> NonZeros(values).0[k] != c
  {
    var nz := NonZeros(values);
    forall k | 0 <= k < |nz.0| ensures nz.0[k] != c {
      assert nz.1[k] == values[nz.0[k]] != 0.0;
    }
  }

  /** A column missing from `indices` has no node. */
  lemma NoNodeForColumn(indices: seq<int>, values: seq<real>, c: int)
    requires |values| >= |indices|
    requires forall k :: 0 <= k < |indices| ==> indices[k] != c
    ensures Lookup(IndexedNodes(indices, values), c + 1) == 0.0
  {
    FindNone(IndexedNodes(indices, values), c + 1);
  }

  /** A non-zero cell is read from its own node. */
  lemma NonZeroNodeFound(values: seq<real>, c: int, k: nat)
    requires 0 <= c < |values|
    requires k < |NonZeros(values).0| && NonZeros(values).0[k] == c
    ensures var nz := NonZeros(values);
            Lookup(IndexedNodes(nz.0, nz.1), c + 1) == values[c]
  {
    var nz := NonZeros(values);
    var ns := IndexedNodes(nz.0, nz.1);
    forall j | 0 <= j < k ensures ns[j].index != c + 1 {
      assert nz.0[j] < nz.0[k];
    }
    FindFirstMatch(ns, c + 1, k);
  }

  /** Find is pinned down by a first matching position. */
  lemma FindFirstMatch(ns: seq<FeatureNode>, index: int, p: nat)
    requires p < |ns| && ns[p].index == index
    requires forall j :: 0 <= j < p ==> ns[j].index != index
    ensures Find(ns, index) == p
  {
  }

  /** Find reports |ns| when no node matches. */
  lemma FindNone(ns: seq<FeatureNode>, index: int)
    requires forall j :: 0 <= j < |ns| ==> ns[j].index != index
    ensures Find(ns, index) == |ns|
  {
  }

  // ---------------------------------------------------------------------
  // The vector
  // ---------------------------------------------------------------------

  class SparseDoubleMatrix1D {
    /** The number of cells (Colt's size). */
    var size: int
    /** The liblinear node array; it may be shared with another vector after `assign`. */
    var nodes: array<FeatureNode>

    /** The value of cell `column`, as `getQuick` reads it. */
    ghost function Cell(column: int): real
      reads this, nodes
    {
      Lookup(nodes[..], column + 1)
    }

    /** A vector holding a copy of `values`, one node per value. */
    constructor Dense(values: seq<real>)
      ensures size == |values| && fresh(nodes)
      ensures nodes[..] == DenseNodes(values)
    {
      var a := new FeatureNode[|values|];
      var i := 0;
      while i < |values|
        invariant 0 <= i <= |values|
        invariant forall j :: 0 <= j < i ==> a[j] == FeatureNode(j + 1, values[j])
      {
        a[i] := FeatureNode(i + 1, values[i]);
        i := i + 1;
      }
      size := |values|;
      nodes := a;
    }

    /** A vector of `columns` cells whose node i has column `indices[i]` and value `values[i]`. */
    constructor Indexed(columns: int, indices: seq<int>, values: seq<real>)
      requires columns >= 0
      requires |values| >= |indices|
      ensures size == columns && fresh(nodes)
      ensures nodes[..] == IndexedNodes(indices, values)
    {
      var a := new FeatureNode[|indices|];
      var i := 0;
      while i < |indices|
        invariant 0 <= i <= |indices|
        invariant forall j :: 0 <= j < i ==> a[j] == FeatureNode(indices[j] + 1, values[j])
      {
        a[i] := FeatureNode(indices[i] + 1, values[i]);
        i := i + 1;
      }
      size := columns;
      nodes := a;
    }

    /** An all-zero vector of `columns` cells: no nodes at all. */
    constructor Empty(columns: int)
      requires columns >= 0
      ensures size == columns && fresh(nodes) && nodes.Length == 0
      ensures forall c :: Cell(c) == 0.0
    {
      size := columns;
      nodes := new FeatureNode[0];
    }

    /** Reads cell `column` by a linear search for the first node with index column+1. */
    method GetQuick(column: int) returns (v: real)
      ensures v == Lookup(nodes[..], column + 1)
      ensures (exists i :: 0 <= i < nodes.Length && nodes[i].index == column + 1) ||  v == 0.0
    {
      var i := 0;
      while i < nodes.Length
        invariant 0 <= i <= nodes.Length
        invariant forall j :: 0 <= j < i ==> nodes[j].index != column + 1
      {
        if nodes[i].index == column + 1 {
          FindFirstMatch(nodes[..], column + 1, i);
          return nodes[i].value;
        }
        i := i + 1;
      }
      FindNone(nodes[..], column + 1);
      return 0.0;
    }

    /** Sets cell `index` to `value`: updates the node in place when it exists,
        otherwise, for a non-zero value, replaces the node array by one with the
        new node inserted before the first node whose index is not smaller. */
    method SetQuick(index: int, value: real)
      modifies this, nodes
      ensures size == old(size)
      ensures nodes[..] == Assigned(old(nodes[..]), index + 1, value)
      ensures Find(old(nodes[..]), index + 1) < old(nodes.Length) || value == 0.0 ==> nodes == old(nodes)
      ensures Find(old(nodes[..]), index + 1) == old(nodes.Length) && value != 0.0 ==> fresh(nodes)
      ensures Cell(index) == value
      ensures forall c :: c != index ==> Cell(c) == old(Cell(c))
    {
      ghost var before := nodes[..];
      var i := 0;
      while i < nodes.Length
        invariant 0 <= i <= nodes.Length
        invariant nodes[..] == before
        invariant forall j :: 0 <= j < i ==> nodes[j].index != index + 1
      {
        if nodes[i].index == index + 1 {
          FindFirstMatch(before, index + 1, i);
          nodes[i] := nodes[i].(value := value);
          assert nodes[..] == Assigned(before, index + 1, value);
          LookupAfter(before, index + 1, value);
          return;
        }
        i := i + 1;
      }
      FindNone(before, index + 1);
      if value != 0.0 {
        nodes := InsertNode(nodes, index + 1, value);
      }
      LookupAfter(before, index + 1, value);
    }

    /** Replaces the contents by those of another sparse vector of the same size
        by sharing its node array; assigning a vector to itself changes nothing. */
    method Assign(other: SparseDoubleMatrix1D) returns (r: Outcome<Exception>)
      modifies this
      ensures other == this ==> r == Pass && nodes == old(nodes) && size == old(size)
      ensures other != this ==> (r == Pass <==> old(size) == other.size)
      ensures r == Pass ==> nodes == other.nodes && size == old(size)
      ensures r == Pass ==> forall c :: Cell(c) == other.Cell(c)
      ensures r.Fail? ==> nodes == old(nodes) && size == old(size)
    {
      if other == this {
        return Pass;
      }
      if size != other.size {
        return Fail(IllegalArgument);
      }
      nodes := other.nodes;
      return Pass;
    }

    /** Replaces the contents by those of a dense vector of the same size: one
        node per non-zero cell, in column order. */
    method AssignDense(other: seq<real>) returns (r: Outcome<Exception>)
      modifies this
      ensures r == Pass <==> old(size) == |other|
      ensures r == Pass ==> fresh(nodes) && StrictlyIncreasing(nodes[..])
      ensures r == Pass ==> nodes[..] == IndexedNodes(NonZeros(other).0, NonZeros(other).1)
      ensures r == Pass ==> forall c :: 0 <= c < |other| ==> Cell(c) == other[c]
      ensures r == Pass ==> forall c :: c < 0 || c >= |other| ==> Cell(c) == 0.0
      ensures r.Fail? ==> nodes == old(nodes)
      ensures size == old(size)
    {
      if size != |other| {
        return Fail(IllegalArgument);
      }
      var nz := NonZeros(other);
      var indexList, valueList := nz.0, nz.1;
      var a := new FeatureNode[|indexList|];
      var i := 0;
      while i < |indexList|
        modifies a
        invariant 0 <= i <= |indexList|
        invariant forall j :: 0 <= j < i ==> a[j] == FeatureNode(indexList[j] + 1, valueList[j])
      {
        a[i] := FeatureNode(indexList[i] + 1, valueList[i]);
        i := i + 1;
      }
      nodes := a;
      assert nodes[..] == IndexedNodes(nz.0, nz.1);
      forall c | 0 <= c < |other| ensures Cell(c) == other[c] {
        NonZeroNodesAgree(other, c);
      }
      forall c | c < 0 || c >= |other| ensures Cell(c) == 0.0 {
        NoNodeForColumn(nz.0, nz.1, c);
      }
      return Pass;
    }
  }

  /** A new node array holding `previous` with the node (index, v) inserted
      before the first node whose index is not smaller, built by two copy loops. */
  method InsertNode(previous: array<FeatureNode>, index: int, v: real) returns (grown: array<FeatureNode>)
    ensures fresh(grown)
    ensures grown[..] == var q := InsertPos(previous[..], index);
                         previous[..q] + [FeatureNode(index, v)] + previous[q..]
  {
    grown := new FeatureNode[previous.Length + 1];
    var q := CopyBelow(previous, grown, index);
    grown[q] := FeatureNode(index, v);
    CopyAbove(previous, grown, q);
    ghost var expected := previous[..q] + [FeatureNode(index, v)] + previous[q..];
    assert |expected| == grown.Length;
    forall j | 0 <= j < grown.Length ensures grown[j] == expected[j] {
      if j > q {
        assert grown[j] == previous[j - 1];
      }
    }
    assert grown[..] == expected;
  }

  /** The first copy loop: copies the nodes whose index is below `index` and
      returns where it stopped. */
  method CopyBelow(previous: array<FeatureNode>, grown: array<FeatureNode>, index: int) returns (q: nat)
    requires grown.Length == previous.Length + 1 && grown != previous
    modifies grown
    ensures q == InsertPos(previous[..], index)
    ensures forall j :: 0 <= j < q ==> grown[j] == previous[j]
  {
    q := 0;
    while q < previous.Length && previous[q].index < index
      invariant 0 <= q <= previous.Length
      invariant forall j :: 0 <= j < q ==> previous[j].index < index
      invariant forall j :: 0 <= j < q ==> grown[j] == previous[j]
    {
      grown[q] := previous[q];
      q := q + 1;
    }
    InsertPosAt(previous[..], index, q);
  }

  /** The second copy loop: copies the nodes from position `q` on one slot up. */
  method CopyAbove(previous: array<FeatureNode>, grown: array<FeatureNode>, q: nat)
    requires grown.Length == previous.Length + 1 && grown != previous && q <= previous.Length
    modifies grown
    ensures forall j :: 0 <= j <= q ==> grown[j] == old(grown[j])
    ensures forall j :: q <= j < previous.Length ==> grown[j + 1] == previous[j]
  {
    var i := q;
    while i < previous.Length
      invariant q <= i <= previous.Length
      invariant forall j :: 0 <= j <= q ==> grown[j] == old(grown[j])
      invariant forall j :: q <= j < i ==> grown[j + 1] == previous[j]
    {
      grown[i + 1] := previous[i];
      i := i + 1;
    }
  }

  /** Both read-back laws of Assigned at once, for every column. */
  lemma LookupAfter(ns: seq<FeatureNode>, index: int, v: real)
    ensures Lookup(Assigned(ns, index, v), index) == v
    ensures forall k :: k != index ==> Lookup(Assigned(ns, index, v), k) == Lookup(ns, k)
  {
    LookupAssignedSame(ns, index, v);
    forall k | k != index ensures Lookup(Assigned(ns, index, v), k) == Lookup(ns, k) {
      LookupAssignedOther(ns, index, v, k);
    }
  }

  /** A position below which every index is smaller, and at which the index is not, is InsertPos. */
  lemma InsertPosAt(ns: seq<FeatureNode>, index: int, p: nat)
    requires p <= |ns|
    requires forall j :: 0 <= j < p ==> ns[j].index < index
    requires p < |ns| ==> ns[p].index >= index
    ensures InsertPos(ns, index) == p
  {
  }
}
