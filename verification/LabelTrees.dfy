/** `EquivalenceLabelTrees`: union-find over provisional labels, as trees in one vector. */
module LabelTrees {

  /** Every node points at itself or at a smaller node; label 0 is the background, a tree of its own. */
  ghost predicate Forest(labels: seq<nat>) {
    && |labels| > 0 && labels[0] == 0
    && forall i | 0 < i < |labels| :: 0 < labels[i] <= i
  }

  ghost function Root(labels: seq<nat>, i: nat): (r: nat)
    requires Forest(labels) && i < |labels|
    ensures r <= i && labels[r] == r
    ensures r == i <==> labels[i] == i
    ensures r == 0 <==> i == 0
    decreases i
  {
    if labels[i] == i then i else Root(labels, labels[i])
  }

  /** Redirecting one node to a root moves some of its tree's nodes, or all if it was the root, and no others. */
  lemma {:induction false} Redirect(labels: seq<nat>, a: nat, root: nat, x: nat)
    requires Forest(labels) && a < |labels| && x < |labels| && 0 < root <= a && labels[root] == root
    ensures Forest(labels[a := root])
    ensures var labels' := labels[a := root];
            && (Root(labels, x) != Root(labels, a) ==> Root(labels', x) == Root(labels, x))
            && (Root(labels', x) == Root(labels, x) || Root(labels', x) == root)
            && (labels[a] == a && Root(labels, x) == a ==> Root(labels', x) == root)
            && Root(labels', a) == root && labels'[root] == root
            && (x < a ==> Root(labels', x) == Root(labels, x))
    decreases x
  {
    var labels' := labels[a := root];
    assert Forest(labels');
    if x != a && labels[x] != x {
      Redirect(labels, a, root, labels[x]);
    }
  }

  /** The trees of `i` and `j` have become one, rooted at the smaller root; all others are as before. */
  ghost predicate United(before: seq<nat>, after: seq<nat>, i: nat, j: nat)
    requires Forest(before) && i < |before| && j < |before|
  {
    && Forest(after) && |after| == |before|
    && forall x: nat | x < |before| ::
         Root(after, x) == if Root(before, x) == Root(before, i) || Root(before, x) == Root(before, j)
                           then (if Root(before, i) < Root(before, j) then Root(before, i) else Root(before, j))
                           else Root(before, x)
  }

  /** All nodes of the tree of `i` now hang off `root`. */
  ghost predicate Rerooted(before: seq<nat>, after: seq<nat>, i: nat, root: nat)
    requires Forest(before) && i < |before|
  {
    && Forest(after) && |after| == |before|
    && forall x: nat | x < |before| ::
         Root(after, x) == if Root(before, x) == Root(before, i) then root else Root(before, x)
  }

  /** The table `getLabels` makes: one number per tree, 0 for the background, none skipped. */
  ghost predicate Numbered(labels: seq<nat>, table: seq<nat>, k: nat) {
    && Forest(labels) && |table| == |labels| && table[0] == 0 && 0 < k <= |table|
    && (forall i: nat | 0 < i < |labels| :: 0 < table[i] < k)
    && (forall i: nat, j: nat | i < |labels| && j < |labels| ::
          table[i] == table[j] <==> Root(labels, i) == Root(labels, j))
    && NoneSkipped(table, |table|, k)
  }

  /** Every number below `k` is given to one of the first `i` nodes. */
  ghost predicate NoneSkipped(table: seq<nat>, i: nat, k: nat)
    requires i <= |table|
  {
    forall v: nat | v < k :: v in table[..i]
  }

  lemma NoneSkippedNext(table: seq<nat>, i: nat, k: nat, v: nat)
    requires i < |table| && NoneSkipped(table, i, k)
    ensures NoneSkipped(table[i := v], i + 1, k)
    ensures v == k ==> NoneSkipped(table[i := v], i + 1, k + 1)
  {
    assert table[i := v][..i + 1] == table[..i] + [v];
  }

  /** The numbering has got as far as node `i`: the rest of the vector still holds the trees. */
  ghost predicate NumberedTo(before: seq<nat>, labels: seq<nat>, i: nat, k: nat) {
    && Forest(before) && |labels| == |before| && 1 <= i <= |labels| && labels[0] == 0 && 0 < k <= i
    && (forall a: nat | i <= a < |labels| :: labels[a] == before[a])
    && (forall a: nat | 0 < a < i :: 0 < labels[a] < k)
    && (forall a: nat, b: nat | a < i && b < i :: labels[a] == labels[b] <==> Root(before, a) == Root(before, b))
    && (k == i <==> forall a: nat | a < i :: Root(before, a) == a)
    && NoneSkipped(labels, i, k)
  }

  lemma NothingNumbered(labels: seq<nat>)
    requires Forest(labels)
    ensures NumberedTo(labels, labels, 1, 1)
  {
    assert labels[..1] == [0];
  }

  /** A node that is not a root takes the number of the node it points at. */
  lemma NumberChild(before: seq<nat>, labels: seq<nat>, i: nat, k: nat)
    requires NumberedTo(before, labels, i, k) && i < |labels| && labels[i] < i
    ensures NumberedTo(before, labels[i := labels[labels[i]]], i + 1, k)
  {
    hide NoneSkipped;
    var p := before[i];
    var labels' := labels[i := labels[p]];
    NoneSkippedNext(labels, i, k, labels[p]);
    assert Root(before, i) == Root(before, p);
    forall a: nat, b: nat | a < i + 1 && b < i + 1
      ensures labels'[a] == labels'[b] <==> Root(before, a) == Root(before, b)
    {
      var a', b' := if a == i then p else a, if b == i then p else b;
      assert labels[a'] == labels[b'] <==> Root(before, a') == Root(before, b');
    }
  }

  /** A root takes the next free number. */
  lemma NumberRoot(before: seq<nat>, labels: seq<nat>, i: nat, k: nat)
    requires NumberedTo(before, labels, i, k) && i < |labels| && labels[i] >= i
    ensures NumberedTo(before, labels[i := k], i + 1, k + 1)
  {
    hide NoneSkipped;
    var labels' := labels[i := k];
    NoneSkippedNext(labels, i, k, k);
    assert before[i] == i && Root(before, i) == i;
    forall a: nat, b: nat | a < i + 1 && b < i + 1
      ensures labels'[a] == labels'[b] <==> Root(before, a) == Root(before, b)
    {
      if a < i && b < i {
        assert labels[a] == labels[b] <==> Root(before, a) == Root(before, b);
      }
    }
  }

  ghost predicate AllRoots(labels: seq<nat>)
    requires Forest(labels)
  {
    forall i: nat | i < |labels| :: Root(labels, i) == i
  }

  lemma NumberedAll(before: seq<nat>, labels: seq<nat>, k: nat)
    requires NumberedTo(before, labels, |labels|, k)
    ensures Numbered(before, labels, k) && (k == |labels| <==> AllRoots(before))
  {
  }

  class Trees {
    var labels: seq<nat>
    var labelsSize: nat
    var nextFree: nat

    ghost predicate Valid()
      reads this
    {
      Forest(labels) && |labels| == nextFree && nextFree <= labelsSize
    }

    constructor ()
    {
      labels, labelsSize, nextFree := [], 0, 0;
    }

    /** Back to the background label alone, with room for `size` labels in all. */
    method Reset(size: nat)
      requires size > 0
      modifies this
      ensures Valid() && labels == [0] && labelsSize == size && nextFree == 1
    {
      labelsSize := size;
      labels := [0];
      nextFree := 1;
    }

    /** A new tree of one node, unless all labels are used up. */
    method MakeLabel() returns (overflow: bool, l: nat)
      requires Valid()
      modifies this
      ensures Valid() && labelsSize == old(labelsSize)
      ensures overflow <==> old(nextFree) == labelsSize
      ensures overflow ==> labels == old(labels)
      ensures !overflow ==> l == old(|labels|) && labels == old(labels) + [l]
    {
      if nextFree == labelsSize {
        return true, 0;
      }
      labels := labels + [nextFree];
      overflow, l := false, nextFree;
      nextFree := nextFree + 1;
    }

    method FindRoot(i: nat) returns (root: nat)
      requires Valid() && i < |labels|
      ensures root == Root(labels, i)
    {
      root := i;
      while labels[root] < root
        invariant root < |labels| && Root(labels, root) == Root(labels, i)
        decreases root
      {
        root := labels[root];
      }
    }

    /** Path compression: every node from `i` to its root is redirected to `root`. */
    method SetRoot(i: nat, root: nat)
      requires Valid() && i < |labels| && 0 < root <= Root(labels, i) && labels[root] == root
      modifies this
      ensures Valid() && labelsSize == old(labelsSize)
      ensures Rerooted(old(labels), labels, i, root)
    {
      ghost var before, top := labels, Root(labels, i);
      var n: nat := i;
      while labels[n] < n
        invariant Valid() && n < |labels| && |labels| == |before| && labelsSize == old(labelsSize)
        invariant Root(labels, n) == top && 0 < root <= top && labels[root] == root && labels[top] == top
        invariant forall x: nat | x < |labels| ::
                    if Root(before, x) == top then Root(labels, x) == top || Root(labels, x) == root
                    else Root(labels, x) == Root(before, x)
        decreases n
      {
        var j := labels[n];
        forall x: nat | x < |labels|
          ensures Forest(labels[n := root])
          ensures Root(labels[n := root], x) == Root(labels, x) || Root(labels[n := root], x) == root
          ensures Root(labels, x) != top ==> Root(labels[n := root], x) == Root(labels, x)
          ensures x < n ==> Root(labels[n := root], x) == Root(labels, x)
        {
          Redirect(labels, n, root, x);
        }
        labels := labels[n := root];
        n := j;
      }
      forall x: nat | x < |labels|
        ensures Forest(labels[n := root])
        ensures Root(labels[n := root], x) == if Root(labels, x) == top then root else Root(labels, x)
      {
        Redirect(labels, n, root, x);
      }
      labels := labels[n := root];
    }

    method UnionTrees(i: nat, j: nat) returns (root: nat)
      requires Valid() && 0 < i < |labels| && 0 < j < |labels|
      modifies this
      ensures Valid() && labelsSize == old(labelsSize)
      ensures United(old(labels), labels, i, j)
      ensures 0 < root < |labels| && Root(labels, root) == Root(labels, i) == root
    {
      root := FindRoot(i);
      if i != j {
        var rootJ := FindRoot(j);
        root := if rootJ < root then rootJ else root;
        SetRoot(j, root);
      }
      SetRoot(i, root);
    }

    /**
     Numbers the trees and cuts the vector to the number of trees, so that only `labels` is left of the
     numbered `storage`. The cut takes labels away unless every label is a tree of its own.
     */
    method GetLabels() returns (storage: seq<nat>, k: nat)
      requires Valid()
      modifies this
      ensures Numbered(old(labels), storage, k) && labels == storage[..k]
      ensures k == |storage| <==> AllRoots(old(labels))
    {
      hide Root, NoneSkipped, NumberedTo;
      ghost var before := labels;
      NothingNumbered(before);
      k := 1;
      var i := 1;
      while i < nextFree
        invariant 0 < i <= nextFree == |labels| && before == old(labels) && NumberedTo(before, labels, i, k)
      {
        if labels[i] < i {
          NumberChild(before, labels, i, k);
          labels := labels[i := labels[labels[i]]];
        } else {
          NumberRoot(before, labels, i, k);
          labels := labels[i := k];
          k := k + 1;
        }
        i := i + 1;
      }
      storage := labels;
      NumberedAll(before, labels, k);
      labels := labels[..k];
    }
  }
}
