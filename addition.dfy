/** Pointwise addition of two trees of one type (`operator+=` and the `add_eq`
    functor), as a function of the two operand values. */
module Addition {
  import opened Sequences
  import opened InheritanceScan
  import opened Trees

  /** The value `a` holds after `a += b`.  A leaf adds the right value into
      its own; an internal node scans its children with `add_eq`. */
  function AddTree(a: Tree, b: Tree): Tree
    requires Addable(a, b)
    decreases b, 1
  {
    match a
    case Leaf(n, x) => Leaf(n, x + b.val)
    case Internal(_, cs) => Scan(AddEq(b), a, |cs|)
  }

  /** add_eq: applied to position i, it performs `child i of the left parent
      += child i of the right parent`.  The guard holds whenever the scan is
      run on operands `+=` accepts; it stands for the compile-time type check. */
  function AddEq(b: Tree): (Tree, nat) -> Tree
    decreases b, 0
  {
    (a: Tree, i: nat) =>
      if a.Internal? && b.Internal? && i < |a.children| && i < |b.children|
         && SameType(a.children[i], b.children[i])
      then
        SameTypeIsAddable(a.children[i], b.children[i]);
        a.(children := a.children[i := AddTree(a.children[i], b.children[i])])
      else a
  }

  /** The children of `a` after the scan has visited the first k of them:
      those have had the right-hand child added in, the rest are untouched. */
  function AddedUpTo(a: Tree, b: Tree, k: nat): seq<Tree>
    requires Addable(a, b) && a.Internal?
  {
    seq(|a.children|, i requires 0 <= i < |a.children| =>
      if i < k then (SameTypeIsAddable(a.children[i], b.children[i]); AddTree(a.children[i], b.children[i]))
      else a.children[i])
  }

  lemma {:induction false} AddEqPrefix(a: Tree, b: Tree, k: nat)
    requires Addable(a, b) && a.Internal? && k <= |a.children|
    ensures Scan(AddEq(b), a, k) == a.(children := AddedUpTo(a, b, k))
  {
    if k == 0 {
      assert AddedUpTo(a, b, 0) == a.children;
    } else {
      AddEqPrefix(a, b, k - 1);
      ScanLast(AddEq(b), a, k - 1);
      var before := a.(children := AddedUpTo(a, b, k - 1));
      assert before.children[k - 1] == a.children[k - 1];
      assert AddEq(b)(before, k - 1) == a.(children := AddedUpTo(a, b, k));
    }
  }

  /** `a += b` on internal nodes: the result keeps the left node's name and
      its i-th child is the left i-th child plus the right i-th child. */
  lemma AddChildren(a: Tree, b: Tree)
    requires Addable(a, b) && a.Internal?
    ensures AddTree(a, b) == Internal(a.name, AddedUpTo(a, b, |a.children|))
  {
    AddEqPrefix(a, b, |a.children|);
  }

  /** The sum keeps the left operand's type: its kinds, its names (its own
      name included) and its child lists. */
  lemma {:induction false} AddKeepsType(a: Tree, b: Tree)
    requires Addable(a, b)
    ensures SameType(AddTree(a, b), a)
    decreases a
  {
    if a.Internal? {
      AddChildren(a, b);
      forall i | 0 <= i < |a.children|
        ensures SameType(AddTree(a, b).children[i], a.children[i])
      {
        SameTypeIsAddable(a.children[i], b.children[i]);
        AddKeepsType(a.children[i], b.children[i]);
      }
    }
  }

  /** Leaf entries added position by position: the left path is kept and
      the values are summed. */
  function AddEntries(xs: seq<LeafEntry>, ys: seq<LeafEntry>): seq<LeafEntry>
    requires |xs| == |ys|
  {
    seq(|xs|, k requires 0 <= k < |xs| => LeafEntry(xs[k].path, xs[k].val + ys[k].val))
  }

  lemma AddEntriesAppend(x0: seq<LeafEntry>, xs: seq<LeafEntry>, y0: seq<LeafEntry>, ys: seq<LeafEntry>)
    requires |x0| == |y0| && |xs| == |ys|
    ensures AddEntries(x0 + xs, y0 + ys) == AddEntries(x0, y0) + AddEntries(xs, ys)
  {
    var l, r := AddEntries(x0 + xs, y0 + ys), AddEntries(x0, y0) + AddEntries(xs, ys);
    assert |l| == |r|;
    forall k | 0 <= k < |l| ensures l[k] == r[k] {
      if k < |x0| {
        assert (x0 + xs)[k] == x0[k] && (y0 + ys)[k] == y0[k];
      } else {
        assert (x0 + xs)[k] == xs[k - |x0|] && (y0 + ys)[k] == ys[k - |x0|];
      }
    }
  }

  /** Adding block by block and then concatenating is adding the
      concatenations. */
  lemma {:induction false} FlattenAddEntries(xss: seq<seq<LeafEntry>>, yss: seq<seq<LeafEntry>>)
    requires |xss| == |yss|
    requires forall i :: 0 <= i < |xss| ==> |xss[i]| == |yss[i]|
    ensures |Flatten(xss)| == |Flatten(yss)|
    ensures AddEntries(Flatten(xss), Flatten(yss))
         == Flatten(seq(|xss|, i requires 0 <= i < |xss| => AddEntries(xss[i], yss[i])))
  {
    if xss != [] {
      FlattenAddEntries(xss[1..], yss[1..]);
      FlattenSameLength(xss[1..], yss[1..]);
      AddEntriesAppend(xss[0], Flatten(xss[1..]), yss[0], Flatten(yss[1..]));
      var sums := seq(|xss|, i requires 0 <= i < |xss| => AddEntries(xss[i], yss[i]));
      assert sums[1..] == seq(|xss| - 1, i requires 0 <= i < |xss| - 1 => AddEntries(xss[1..][i], yss[1..][i]));
    }
  }

  lemma UnderAddEntries(n: string, m: string, xs: seq<LeafEntry>, ys: seq<LeafEntry>)
    requires |xs| == |ys|
    ensures Under(n, AddEntries(xs, ys)) == AddEntries(Under(n, xs), Under(m, ys))
  {
  }

  /** `a += b` adds each right-hand leaf into the leaf at the same position
      on the left (depth first, left to right); every leaf keeps its path of
      names from the left operand. */
  lemma {:induction false} AddLeaves(a: Tree, b: Tree)
    requires Addable(a, b)
    ensures |Leaves(a)| == |Leaves(b)|
    ensures Leaves(AddTree(a, b)) == AddEntries(Leaves(a), Leaves(b))
    decreases a
  {
    AddableLeafCount(a, b);
    match a
    case Leaf(_, _) =>
    case Internal(n, cs) =>
      AddChildren(a, b);
      var m, bs := b.name, b.children;
      var rs := AddedUpTo(a, b, |cs|);
      var xss := seq(|cs|, i requires 0 <= i < |cs| => Under(n, Leaves(cs[i])));
      var yss := seq(|cs|, i requires 0 <= i < |cs| => Under(m, Leaves(bs[i])));
      var zss := seq(|cs|, i requires 0 <= i < |cs| => Under(n, Leaves(rs[i])));
      forall i | 0 <= i < |cs|
        ensures |xss[i]| == |yss[i]| && zss[i] == AddEntries(xss[i], yss[i])
      {
        SameTypeIsAddable(cs[i], bs[i]);
        AddLeaves(cs[i], bs[i]);
        UnderAddEntries(n, m, Leaves(cs[i]), Leaves(bs[i]));
      }
      FlattenAddEntries(xss, yss);
      assert zss == seq(|xss|, i requires 0 <= i < |xss| => AddEntries(xss[i], yss[i]));
      assert Leaves(AddTree(a, b)) == Flatten(zss);
  }
}
