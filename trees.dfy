/** The inheritance tree as a value.

    A `LeafNode<Name, T>` holds one value of type T under a compile-time name;
    an `InternalNode<Name, ChildNodes...>` inherits its children, in the order
    they are listed.  A C++ tree type fixes the names, the kinds and the child
    lists; an object of that type adds the leaf values.  C++ also refuses a
    child type listed twice, and `get<Child>` is ambiguous for a direct child
    type that recurs under a sibling; `Tree` does not rule these shapes out,
    and gives them the position-by-position meaning. */
module Trees {
  import opened Sequences

  datatype Tree =
    | Leaf(name: string, val: int)
    | Internal(name: string, children: seq<Tree>)

  /** Two trees are objects of the same C++ type: same kinds, same names and
      the same child lists all the way down; only the leaf values may differ. */
  predicate SameType(a: Tree, b: Tree)
    decreases a
  {
    match a
    case Leaf(n, _) => b.Leaf? && b.name == n
    case Internal(n, cs) =>
      && b.Internal? && b.name == n && |cs| == |b.children|
      && forall i :: 0 <= i < |cs| ==> SameType(cs[i], b.children[i])
  }

  /** The operands `a += b` compiles for.  `LeafNode::operator+=` takes a leaf
      of its own type.  `InternalNode::operator+=` is declared for an internal
      node with the same child types and any name, but each `add_eq` step
      binds the right operand as the left operand's own type, so a name that
      differs only compiles when there are no children to visit. */
  predicate Addable(a: Tree, b: Tree)
  {
    match a
    case Leaf(n, _) => b.Leaf? && b.name == n
    case Internal(n, cs) =>
      && b.Internal? && (cs != [] ==> b.name == n) && |cs| == |b.children|
      && forall i :: 0 <= i < |cs| ==> SameType(cs[i], b.children[i])
  }

  /** Operands with at least one child, or leaves, are addable exactly when
      they are objects of the same type. */
  lemma AddableIsSameType(a: Tree, b: Tree)
    requires a.Leaf? || a.children != []
    ensures Addable(a, b) <==> SameType(a, b)
  {
  }

  /** A node without children accepts a right operand of any name. */
  lemma AddableChildless(n: string, m: string)
    ensures Addable(Internal(n, []), Internal(m, []))
    ensures n != m ==> !SameType(Internal(n, []), Internal(m, []))
  {
  }

  /** One leaf seen from the root: the names on the way down to it (the
      root's first, the leaf's own last) and its value. */
  datatype LeafEntry = LeafEntry(path: seq<string>, val: int)

  /** The entries of a subtree, seen from a parent called `name`. */
  function Under(name: string, es: seq<LeafEntry>): seq<LeafEntry>
  {
    seq(|es|, k requires 0 <= k < |es| => LeafEntry([name] + es[k].path, es[k].val))
  }

  /** The leaves of a tree, depth first, children left to right. */
  function Leaves(t: Tree): seq<LeafEntry>
    decreases t
  {
    match t
    case Leaf(n, v) => [LeafEntry([n], v)]
    case Internal(n, cs) =>
      Flatten(seq(|cs|, i requires 0 <= i < |cs| => Under(n, Leaves(cs[i]))))
  }

  lemma SameTypeIsAddable(a: Tree, b: Tree)
    requires SameType(a, b)
    ensures Addable(a, b)
  {
  }

  /** Flattening two lists of blocks whose blocks pairwise have the same
      length gives two sequences of the same length. */
  lemma {:induction false} FlattenSameLength<T>(xss: seq<seq<T>>, yss: seq<seq<T>>)
    requires |xss| == |yss|
    requires forall i :: 0 <= i < |xss| ==> |xss[i]| == |yss[i]|
    ensures |Flatten(xss)| == |Flatten(yss)|
  {
    if xss != [] {
      FlattenSameLength(xss[1..], yss[1..]);
    }
  }

  /** Trees of types `+=` accepts have as many leaves as each other. */
  lemma {:induction false} AddableLeafCount(a: Tree, b: Tree)
    requires Addable(a, b)
    ensures |Leaves(a)| == |Leaves(b)|
    decreases a
  {
    match a
    case Leaf(_, _) =>
    case Internal(n, cs) =>
      var xss := seq(|cs|, i requires 0 <= i < |cs| => Under(n, Leaves(cs[i])));
      var yss := seq(|cs|, i requires 0 <= i < |cs| => Under(b.name, Leaves(b.children[i])));
      forall i | 0 <= i < |cs|
        ensures |xss[i]| == |yss[i]|
      {
        SameTypeIsAddable(cs[i], b.children[i]);
        AddableLeafCount(cs[i], b.children[i]);
      }
      FlattenSameLength(xss, yss);
  }
}
