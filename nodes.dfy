/** The tree as C++ objects: a `LeafNode` owns a value that `+=` overwrites in
    place; an `InternalNode` owns its children (in the source it inherits
    them as base-class subobjects), and `+=` on it updates every leaf below
    it through the scan.  The structure of a tree is fixed by its type, so
    names, child lists and footprints are constants here and only leaf values
    change. */
module Nodes {
  import opened InheritanceScan
  import opened Trees
  import opened Addition
  import Printing

  /** LeafNode<Name, T>, with T an integer type. */
  class LeafNode {
    const name: string
    var val: int

    /** The default constructor value-initialises the value: zero. */
    constructor (name: string)
      ensures this.name == name && val == 0
    {
      this.name := name;
      val := 0;
    }

    function Value(): Tree
      reads this
    {
      Leaf(name, val)
    }

    /** `*this += rhs`: adds the right value into this one and returns this
        leaf; the right operand is left as it was (unless it is this leaf). */
    method AddAssign(rhs: LeafNode) returns (r: LeafNode)
      requires rhs.name == name
      modifies this
      ensures r == this
      ensures val == old(val) + old(rhs.val)
      ensures rhs != this ==> rhs.val == old(rhs.val)
      ensures Value() == AddTree(old(Value()), old(rhs.Value()))
    {
      val := val + rhs.val;
      r := this;
    }

    /** The line `print(prefix)` writes. */
    method Print(prefix: string := "") returns (lines: seq<string>)
      ensures lines == Printing.Print(Value(), prefix)
    {
      var p := prefix;
      if p != "" {
        p := p + " ";
      }
      lines := [p + name + " == " + Printing.IntToString(val)];
    }
  }

  /** A base subobject of an internal node: a leaf or another internal node. */
  datatype Child = LeafChild(leaf: LeafNode) | InternalChild(node: InternalNode)

  ghost function ChildRepr(c: Child): set<object>
  {
    match c
    case LeafChild(l) => {l}
    case InternalChild(x) => x.Repr
  }

  /** The objects a list of children owns. */
  ghost function ChildrenRepr(kids: seq<Child>): set<object>
  {
    if kids == [] then {} else ChildRepr(kids[0]) + ChildrenRepr(kids[1..])
  }

  lemma {:induction false} ChildrenReprCovers(kids: seq<Child>, i: nat)
    requires i < |kids|
    ensures ChildRepr(kids[i]) <= ChildrenRepr(kids)
  {
    if i > 0 {
      ChildrenReprCovers(kids[1..], i - 1);
    }
  }

  ghost predicate ChildValid(c: Child)
    decreases ChildRepr(c), 1
  {
    match c
    case LeafChild(_) => true
    case InternalChild(x) => x.Valid()
  }

  function ChildValue(c: Child): (t: Tree)
    requires ChildValid(c)
    ensures t.Leaf? <==> c.LeafChild?
    reads ChildRepr(c)
    decreases ChildRepr(c), 1
  {
    match c
    case LeafChild(l) => l.Value()
    case InternalChild(x) => x.Value()
  }

  /** InternalNode<Name, ChildNodes...>. */
  class InternalNode {
    const name: string
    const children: seq<Child>
    ghost const Repr: set<object>

    /** The node owns its children, and no two children share an object. */
    ghost predicate Valid()
      decreases Repr, 0
    {
      && this in Repr
      && (forall i :: 0 <= i < |children| ==>
            && ChildRepr(children[i]) <= Repr
            && this !in ChildRepr(children[i])
            && ChildValid(children[i]))
      && (forall i, j :: 0 <= i < j < |children| ==> ChildRepr(children[i]) !! ChildRepr(children[j]))
    }

    function Value(): Tree
      requires Valid()
      reads Repr
      decreases Repr, 0
    {
      Internal(name, seq(|children|, i requires 0 <= i < |children| && Valid() reads Repr =>
        ChildValue(children[i])))
    }

    constructor (name: string, children: seq<Child>)
      requires forall i :: 0 <= i < |children| ==> ChildValid(children[i])
      requires forall i, j :: 0 <= i < j < |children| ==> ChildRepr(children[i]) !! ChildRepr(children[j])
      ensures Valid()
      ensures this.name == name && this.children == children
      ensures Repr == {this} + ChildrenRepr(children)
    {
      this.name := name;
      this.children := children;
      Repr := {this} + ChildrenRepr(children);
      new;
      forall i | 0 <= i < |children|
        ensures ChildRepr(children[i]) <= Repr
      {
        ChildrenReprCovers(children, i);
      }
    }

    /** `*this += rhs`: the scan with add_eq adds every child of rhs into the
        child at the same position; returns this node.  The right operand is
        either this very node (`x += x` doubles every leaf) or a separate
        object, which is left as it was. */
    method AddAssign(rhs: InternalNode) returns (r: InternalNode)
      requires Valid() && rhs.Valid() && (rhs == this || Repr !! rhs.Repr)
      requires Addable(Value(), rhs.Value())
      modifies Repr
      ensures r == this
      ensures Value() == AddTree(old(Value()), old(rhs.Value()))
      ensures rhs != this ==> rhs.Value() == old(rhs.Value())
      decreases Repr, 1, 0
    {
      ghost var rv := rhs.Value();
      forall j | 0 <= j < |children|
        ensures SameType(ChildValue(children[j]), rv.children[j])
      {
        assert Value().children[j] == ChildValue(children[j]);
      }
      AddEqRecur(rhs, 0, rv);
      r := this;
    }

    /** inher_tree_scan_recur with add_eq, at position i: children i .. n-1
        still to visit, and `rv` is the value the right operand had when the
        scan started (its children from i on still hold it). */
    method AddEqRecur(rhs: InternalNode, i: nat, ghost rv: Tree)
      requires Valid() && rhs.Valid() && (rhs == this || Repr !! rhs.Repr)
      requires i <= |children| == |rhs.children|
      requires rv.Internal? && |rv.children| == |children|
      requires forall j :: i <= j < |children| ==>
        ChildValue(rhs.children[j]) == rv.children[j] && SameType(ChildValue(children[j]), rv.children[j])
      modifies Repr
      ensures Value() == ScanRecur(AddEq(rv), old(Value()), i, |children|)
      ensures rhs != this ==> rhs.Value() == old(rhs.Value())
      decreases Repr, 0, |children| - i
    {
      if i < |children| {
        ghost var before := Value();
        assert before.children[i] == ChildValue(children[i]);
        SameTypeIsAddable(before.children[i], rv.children[i]);
        ghost var after := before.(children := before.children[i := AddTree(before.children[i], rv.children[i])]);
        assert AddEq(rv)(before, i) == after;
        label Before:
        AddEqApply(children[i], rhs.children[i]);
        forall j | 0 <= j < |children|
          ensures ChildValue(children[j]) == after.children[j]
        {
          if j != i {
            assert ChildRepr(children[i]) !! ChildRepr(children[j]);
            assert ChildValue(children[j]) == old@Before(ChildValue(children[j]));
          }
        }
        assert Value() == after;
        forall j | i < j < |children|
          ensures ChildValue(rhs.children[j]) == rv.children[j]
        {
          if rhs != this {
            assert ChildRepr(rhs.children[j]) <= rhs.Repr;
            assert ChildValue(rhs.children[j]) == old@Before(ChildValue(rhs.children[j]));
          }
        }
        AddEqRecur(rhs, i + 1, rv);
      }
    }

    /** The lines `print(prefix)` writes: the prefix is extended by this
        node's name, then the scan with print_f prints every child. */
    method Print(prefix: string := "") returns (lines: seq<string>)
      requires Valid()
      ensures lines == Printing.Print(Value(), prefix)
      decreases Repr, 1, 0
    {
      var p := prefix;
      if p != "" {
        p := p + " ";
      }
      p := p + name;
      lines := PrintFRecur(p, 0, []);
    }

    /** inher_tree_scan_recur with print_f, at position i, after `out` has
        been written. */
    method PrintFRecur(prefix: string, i: nat, out: seq<string>) returns (lines: seq<string>)
      requires Valid() && i <= |children|
      ensures lines == ScanRecur(Printing.PrintF(Value(), prefix), out, i, |children|)
      decreases Repr, 0, |children| - i
    {
      if i == |children| {
        lines := out;
      } else {
        var childLines := PrintFApply(children[i], prefix);
        lines := PrintFRecur(prefix, i + 1, out + childLines);
      }
    }
  }

  /** add_eq::apply: `get<Child>(a) += get<Child>(b)`, dispatched to the
      leaf or internal `operator+=`; b is a itself or owns other objects. */
  method AddEqApply(a: Child, b: Child)
    requires ChildValid(a) && ChildValid(b) && (a == b || ChildRepr(a) !! ChildRepr(b))
    requires SameType(ChildValue(a), ChildValue(b))
    modifies ChildRepr(a)
    ensures ChildValue(a) == AddTree(old(ChildValue(a)), old(ChildValue(b)))
    ensures a != b ==> ChildValue(b) == old(ChildValue(b))
    decreases ChildRepr(a), 2, 0
  {
    match a
    case LeafChild(l) =>
      var _ := l.AddAssign(b.leaf);
    case InternalChild(x) =>
      var _ := x.AddAssign(b.node);
  }

  /** print_f::apply: `get<Child>(a).print(prefix)`. */
  method PrintFApply(c: Child, prefix: string) returns (lines: seq<string>)
    requires ChildValid(c)
    ensures lines == Printing.Print(ChildValue(c), prefix)
    decreases ChildRepr(c), 2, 0
  {
    match c
    case LeafChild(l) =>
      lines := l.Print(prefix);
    case InternalChild(x) =>
      lines := x.Print(prefix);
  }
}
