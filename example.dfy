/** The tree `main` declares as `Bar`: one → A, B, two → (D, three → E), F, G,
    with the leaf values as parameters. */
module ExampleTree {
  import opened Sequences
  import opened Trees
  import opened Addition
  import opened Printing
  import opened Nodes

  function Three(e: int): Tree
  {
    Internal("three", [Leaf("E", e)])
  }

  function Two(d: int, e: int): Tree
  {
    Internal("two", [Leaf("D", d), Three(e)])
  }

  function Bar(a: int, b: int, d: int, e: int, f: int, g: int): Tree
  {
    Internal("one", [Leaf("A", a), Leaf("B", b), Two(d, e), Leaf("F", f), Leaf("G", g)])
  }

  lemma PrintThree(e: int)
    ensures Print(Three(e), "bar one two") == ["bar one two three E == " + IntToString(e)]
  {
    var lineE := "bar one two three E == " + IntToString(e);
    var three := [Leaf("E", e)];
    PrintInternal("three", three, "bar one two");
    assert Extend("bar one two", "three") == "bar one two three";
    assert Extend("bar one two three", "E") + " == " == "bar one two three E == ";
    var blocks := seq(|three|, i requires 0 <= i < |three| => Print(three[i], "bar one two three"));
    assert blocks == [[lineE]];
    FlattenOne([lineE]);
  }

  lemma PrintTwo(d: int, e: int)
    ensures Print(Two(d, e), "bar one")
         == ["bar one two D == " + IntToString(d), "bar one two three E == " + IntToString(e)]
  {
    var lineD, lineE := "bar one two D == " + IntToString(d), "bar one two three E == " + IntToString(e);
    var two := [Leaf("D", d), Three(e)];
    PrintInternal("two", two, "bar one");
    PrintThree(e);
    assert Extend("bar one", "two") == "bar one two";
    assert Extend("bar one two", "D") + " == " == "bar one two D == ";
    var blocks := seq(|two|, i requires 0 <= i < |two| => Print(two[i], "bar one two"));
    assert blocks == [[lineD], [lineE]];
    FlattenCons([lineD], [[lineE]]);
    FlattenOne([lineE]);
    assert [[lineD], [lineE]] == [[lineD]] + [[lineE]];
  }

  /** The line a leaf directly under "one" writes when `bar.print("bar")` runs.
      The caller passes the line as it spells it, so that the proof compares
      that one string and never re-splits the literal. */
  lemma PrintUnderOne(n: string, v: int, line: string)
    requires line == "bar one " + n + " == " + IntToString(v)
    ensures Print(Leaf(n, v), "bar one") == [line]
  {
    assert Extend("bar one", n) == "bar one " + n;
  }

  lemma FlattenBar(la: string, lb: string, ld: string, le: string, lf: string, lg: string)
    ensures Flatten([[la], [lb], [ld, le], [lf], [lg]]) == [la, lb, ld, le, lf, lg]
  {
    FlattenCons([la], [[lb], [ld, le], [lf], [lg]]);
    FlattenCons([lb], [[ld, le], [lf], [lg]]);
    FlattenCons([ld, le], [[lf], [lg]]);
    FlattenCons([lf], [[lg]]);
    FlattenOne([lg]);
  }

  /** The blocks a five-child node's children write, spelled out. */
  lemma PrintEachOfFive(cs: seq<Tree>, p: string)
    requires |cs| == 5
    ensures seq(|cs|, i requires 0 <= i < |cs| => Print(cs[i], p))
         == [Print(cs[0], p), Print(cs[1], p), Print(cs[2], p), Print(cs[3], p), Print(cs[4], p)]
  {
  }

  /** What each child of "one" writes, one block per child. */
  lemma BarBlocks(a: int, b: int, d: int, e: int, f: int, g: int, one: seq<Tree>)
    requires one == Bar(a, b, d, e, f, g).children
    ensures seq(|one|, i requires 0 <= i < |one| => Print(one[i], "bar one")) == [
      ["bar one A == " + IntToString(a)],
      ["bar one B == " + IntToString(b)],
      ["bar one two D == " + IntToString(d), "bar one two three E == " + IntToString(e)],
      ["bar one F == " + IntToString(f)],
      ["bar one G == " + IntToString(g)]]
  {
    PrintEachOfFive(one, "bar one");
    PrintUnderOne("A", a, "bar one A == " + IntToString(a));
    PrintUnderOne("B", b, "bar one B == " + IntToString(b));
    PrintTwo(d, e);
    PrintUnderOne("F", f, "bar one F == " + IntToString(f));
    PrintUnderOne("G", g, "bar one G == " + IntToString(g));
  }

  /** `bar.print("bar")` writes one line per leaf, in declaration order,
      each prefixed by "bar" and the names of the leaf's ancestors. */
  lemma BarPrint(a: int, b: int, d: int, e: int, f: int, g: int)
    ensures Print(Bar(a, b, d, e, f, g), "bar") == [
      "bar one A == " + IntToString(a),
      "bar one B == " + IntToString(b),
      "bar one two D == " + IntToString(d),
      "bar one two three E == " + IntToString(e),
      "bar one F == " + IntToString(f),
      "bar one G == " + IntToString(g)]
  {
    var one := Bar(a, b, d, e, f, g).children;
    PrintInternal("one", one, "bar");
    assert Extend("bar", "one") == "bar one";
    BarBlocks(a, b, d, e, f, g, one);
    FlattenBar("bar one A == " + IntToString(a), "bar one B == " + IntToString(b),
      "bar one two D == " + IntToString(d), "bar one two three E == " + IntToString(e),
      "bar one F == " + IntToString(f), "bar one G == " + IntToString(g));
  }

  lemma ThreeAdd(e: int, e': int)
    ensures Addable(Three(e), Three(e')) && SameType(Three(e), Three(e'))
    ensures AddTree(Three(e), Three(e')) == Three(e + e')
  {
    AddChildren(Three(e), Three(e'));
    assert AddedUpTo(Three(e), Three(e'), 1) == [Leaf("E", e + e')];
  }

  lemma TwoAdd(d: int, e: int, d': int, e': int)
    ensures Addable(Two(d, e), Two(d', e')) && SameType(Two(d, e), Two(d', e'))
    ensures AddTree(Two(d, e), Two(d', e')) == Two(d + d', e + e')
  {
    ThreeAdd(e, e');
    AddChildren(Two(d, e), Two(d', e'));
    var r := AddedUpTo(Two(d, e), Two(d', e'), 2);
    assert r[0] == Leaf("D", d + d') && r[1] == Three(e + e');
    assert r == [Leaf("D", d + d'), Three(e + e')];
  }

  lemma BarAddable(a: int, b: int, d: int, e: int, f: int, g: int,
                   a': int, b': int, d': int, e': int, f': int, g': int)
    ensures Addable(Bar(a, b, d, e, f, g), Bar(a', b', d', e', f', g'))
  {
    TwoAdd(d, e, d', e');
    var xs, ys := Bar(a, b, d, e, f, g).children, Bar(a', b', d', e', f', g').children;
    assert SameType(xs[2], ys[2]);
  }

  /** `+=` on a five-child node, spelled out child by child. */
  lemma AddEachOfFive(x: Tree, y: Tree)
    requires Addable(x, y) && x.Internal? && |x.children| == 5
    ensures forall i :: 0 <= i < 5 ==> Addable(x.children[i], y.children[i])
    ensures AddTree(x, y) == Internal(x.name, [
      AddTree(x.children[0], y.children[0]), AddTree(x.children[1], y.children[1]),
      AddTree(x.children[2], y.children[2]), AddTree(x.children[3], y.children[3]),
      AddTree(x.children[4], y.children[4])])
  {
    forall i | 0 <= i < 5 ensures Addable(x.children[i], y.children[i]) {
      SameTypeIsAddable(x.children[i], y.children[i]);
    }
    AddChildren(x, y);
    var r := AddedUpTo(x, y, 5);
    assert r[0] == AddTree(x.children[0], y.children[0]);
    assert r[1] == AddTree(x.children[1], y.children[1]);
    assert r[2] == AddTree(x.children[2], y.children[2]);
    assert r[3] == AddTree(x.children[3], y.children[3]);
    assert r[4] == AddTree(x.children[4], y.children[4]);
    FiveElements(r);
  }

  lemma FiveElements<T>(r: seq<T>)
    requires |r| == 5
    ensures r == [r[0], r[1], r[2], r[3], r[4]]
  {
  }

  /** `bar += foo` on two objects of type Bar adds leaf to leaf. */
  lemma BarAdd(a: int, b: int, d: int, e: int, f: int, g: int,
               a': int, b': int, d': int, e': int, f': int, g': int)
    ensures Addable(Bar(a, b, d, e, f, g), Bar(a', b', d', e', f', g'))
    ensures AddTree(Bar(a, b, d, e, f, g), Bar(a', b', d', e', f', g'))
         == Bar(a + a', b + b', d + d', e + e', f + f', g + g')
  {
    var x, y := Bar(a, b, d, e, f, g), Bar(a', b', d', e', f', g');
    BarAddable(a, b, d, e, f, g, a', b', d', e', f', g');
    AddEachOfFive(x, y);
    LeafAdd("A", a, a');
    LeafAdd("B", b, b');
    TwoAdd(d, e, d', e');
    LeafAdd("F", f, f');
    LeafAdd("G", g, g');
  }

  lemma LeafAdd(n: string, u: int, v: int)
    ensures Addable(Leaf(n, u), Leaf(n, v))
    ensures AddTree(Leaf(n, u), Leaf(n, v)) == Leaf(n, u + v)
  {
  }

  method NewThree() returns (t: InternalNode)
    ensures t.Valid() && fresh(t.Repr)
    ensures t.Value() == Three(0)
  {
    var e := new LeafNode("E");
    t := new InternalNode("three", [LeafChild(e)]);
    assert ChildrenRepr([LeafChild(e)]) == {e};
    assert t.Value().children[0] == Leaf("E", 0);
  }

  method NewTwo() returns (t: InternalNode)
    ensures t.Valid() && fresh(t.Repr)
    ensures t.Value() == Two(0, 0)
  {
    var d := new LeafNode("D");
    var three := NewThree();
    t := new InternalNode("two", [LeafChild(d), InternalChild(three)]);
    assert ChildrenRepr([LeafChild(d), InternalChild(three)]) == {d} + ChildrenRepr([InternalChild(three)]);
    assert ChildrenRepr([InternalChild(three)]) == three.Repr;
    assert t.Value().children == [Leaf("D", 0), Three(0)];
  }

  /** `Bar foo;`: the objects of a freshly constructed Bar, every leaf holding
      the value-initialised zero. */
  method NewBar() returns (t: InternalNode)
    ensures t.Valid() && fresh(t.Repr)
    ensures t.Value() == Bar(0, 0, 0, 0, 0, 0)
  {
    var a := new LeafNode("A");
    var b := new LeafNode("B");
    var two := NewTwo();
    var f := new LeafNode("F");
    var g := new LeafNode("G");
    var kids := [LeafChild(a), LeafChild(b), InternalChild(two), LeafChild(f), LeafChild(g)];
    t := new InternalNode("one", kids);
    assert ChildrenRepr(kids) == {a} + ChildrenRepr(kids[1..]);
    assert ChildrenRepr(kids[1..]) == {b} + ChildrenRepr(kids[2..]);
    assert ChildrenRepr(kids[2..]) == two.Repr + ChildrenRepr(kids[3..]);
    assert ChildrenRepr(kids[3..]) == {f} + ChildrenRepr(kids[4..]);
    assert ChildrenRepr(kids[4..]) == {g} + ChildrenRepr(kids[5..]);
    assert t.Value().children == [Leaf("A", 0), Leaf("B", 0), Two(0, 0), Leaf("F", 0), Leaf("G", 0)];
  }
}
