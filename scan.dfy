/** The recursive scan over the direct children of an internal node
    (`inher_tree_scan` / `inher_tree_scan_recur`).

    In the source the children are a compile-time list of base types that the
    recursion consumes head first; here they are the positions 0 .. n-1 of the
    node's child list.  The functor (`Func::apply<Parent, Child>`) becomes a
    function `apply(s, i)` of the state `s` the previous applications left
    behind and the position `i` of the child it is applied to. */
module InheritanceScan {
  import opened Sequences

  /** inher_tree_scan_recur: with positions i .. n-1 still to visit, apply the
      functor to position i and recurse on the rest; nothing left is the base
      case, which does nothing. */
  function ScanRecur<S>(apply: (S, nat) -> S, s: S, i: nat, n: nat): S
    requires i <= n
    decreases n - i
  {
    if i == n then s else ScanRecur(apply, apply(s, i), i + 1, n)
  }

  /** inher_tree_scan: start the recursion at the first child of a node with
      n children; a node without children is left as it is. */
  function Scan<S>(apply: (S, nat) -> S, s: S, n: nat): (r: S)
    ensures n == 0 ==> r == s
  {
    ScanRecur(apply, s, 0, n)
  }

  lemma {:induction false} ScanRecurLast<S>(apply: (S, nat) -> S, s: S, i: nat, n: nat)
    requires i <= n
    ensures ScanRecur(apply, s, i, n + 1) == apply(ScanRecur(apply, s, i, n), n)
    decreases n - i
  {
    if i < n {
      ScanRecurLast(apply, apply(s, i), i + 1, n);
    }
  }

  /** Scanning n + 1 children is scanning the first n and then applying the
      functor once more, to the last child. */
  lemma ScanLast<S>(apply: (S, nat) -> S, s: S, n: nat)
    ensures Scan(apply, s, n + 1) == apply(Scan(apply, s, n), n)
  {
    ScanRecurLast(apply, s, 0, n);
  }

  /** A functor that records the position it is applied to. */
  function Record(trace: seq<nat>, i: nat): seq<nat>
  {
    trace + [i]
  }

  /** The scan applies the functor exactly once to each direct child, in the
      order the children are listed, and to nothing else. */
  lemma {:induction false} ScanVisitsInOrder(n: nat)
    ensures |Scan(Record, [], n)| == n
    ensures forall k :: 0 <= k < n ==> Scan(Record, [], n)[k] == k
  {
    if n > 0 {
      ScanVisitsInOrder(n - 1);
      ScanLast(Record, [], n - 1);
    }
  }

  /** A functor that only appends output (such as print_f writing lines)
      makes the scan write the children's blocks of output one after another,
      the first child's first. */
  lemma {:induction false} ScanAppends<T(!new)>(apply: (seq<T>, nat) -> seq<T>, blocks: seq<seq<T>>, s: seq<T>, n: nat)
    requires n <= |blocks|
    requires forall out, i :: 0 <= i < n ==> apply(out, i) == out + blocks[i]
    ensures Scan(apply, s, n) == s + Flatten(blocks[..n])
  {
    if n > 0 {
      ScanAppends(apply, blocks, s, n - 1);
      ScanLast(apply, s, n - 1);
      assert blocks[..n] == blocks[..n - 1] + [blocks[n - 1]];
      FlattenSnoc(blocks[..n - 1], blocks[n - 1]);
    }
  }
}
