/** Concatenation of a sequence of sequences: what the scans below produce when
    each step appends a block of output to what the previous steps wrote. */
module Sequences {

  function Flatten<T>(xss: seq<seq<T>>): seq<T>
  {
    if xss == [] then [] else xss[0] + Flatten(xss[1..])
  }

  /** Appending one more block at the end appends its contents. */
  lemma {:induction false} FlattenSnoc<T>(xss: seq<seq<T>>, xs: seq<T>)
    ensures Flatten(xss + [xs]) == Flatten(xss) + xs
  {
    if xss == [] {
      assert xss + [xs] == [xs];
    } else {
      assert (xss + [xs])[1..] == xss[1..] + [xs];
      FlattenSnoc(xss[1..], xs);
    }
  }

  lemma FlattenCons<T>(xs: seq<T>, xss: seq<seq<T>>)
    ensures Flatten([xs] + xss) == xs + Flatten(xss)
  {
    assert ([xs] + xss)[1..] == xss;
  }

  lemma FlattenOne<T>(xs: seq<T>)
    ensures Flatten([xs]) == xs
  {
    FlattenCons(xs, []);
    assert [xs] + [] == [xs];
  }
}
