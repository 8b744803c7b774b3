/** The path-prefix rendering of a tree (`print`, and the `print_f` functor).
    Each `std::endl`-terminated line written to `std::cout` is one string of
    the result; nothing else is written. */
module Printing {
  import opened Sequences
  import opened InheritanceScan
  import opened Trees

  /** The prefix a node hands on: the incoming prefix, a space only if that
      prefix is not empty, then the node's own name. */
  function Extend(prefix: string, name: string): string
  {
    (if prefix != "" then prefix + " " else prefix) + name
  }

  function DigitChar(d: nat): char
    requires d < 10
  {
    ('0' as int + d) as char
  }

  function NatToString(n: nat): string
    decreases n
  {
    if n < 10 then [DigitChar(n)] else NatToString(n / 10) + [DigitChar(n % 10)]
  }

  /** The decimal text `std::cout << val` writes for an integer: a minus sign
      for negative values, then the digits, most significant first. */
  function IntToString(v: int): (r: string)
    ensures r != [] && (r[0] == '-' <==> v < 0)
  {
    if v < 0 then NatToStringDigits(-v); "-" + NatToString(-v)
    else NatToStringDigits(v); NatToString(v)
  }

  predicate IsDigits(s: string)
  {
    forall k :: 0 <= k < |s| ==> '0' <= s[k] <= '9'
  }

  /** The canonical decimal numeral of a natural number: at least one digit,
      and no leading zero unless the number is zero itself. */
  predicate IsDecimal(s: string)
  {
    s != [] && IsDigits(s) && (s[0] == '0' ==> s == "0")
  }

  /** The canonical numeral of an integer: a natural numeral, or a minus sign
      followed by the numeral of a positive number. */
  predicate IsNumeral(s: string)
  {
    IsDecimal(s) || (|s| >= 2 && s[0] == '-' && s[1] != '0' && IsDecimal(s[1..]))
  }

  /** Reads decimal digits back, the reference the rendering is checked against. */
  function ParseNat(s: string): nat
    requires IsDigits(s)
    decreases |s|
  {
    if s == [] then 0 else ParseNat(s[..|s| - 1]) * 10 + (s[|s| - 1] as int - '0' as int)
  }

  function ParseInt(s: string): int
    requires IsNumeral(s)
  {
    if s[0] == '-' then -(ParseNat(s[1..]) as int) else ParseNat(s)
  }

  lemma {:induction false} NatToStringDigits(n: nat)
    ensures IsDecimal(NatToString(n))
    ensures ParseNat(NatToString(n)) == n
    decreases n
  {
    if n >= 10 {
      NatToStringDigits(n / 10);
      var s := NatToString(n);
      assert s[..|s| - 1] == NatToString(n / 10);
      assert s[0] == NatToString(n / 10)[0];
    }
  }

  /** A canonical numeral is the one the rendering writes for its value. */
  lemma {:induction false} DecimalUnique(s: string)
    requires IsDecimal(s)
    ensures s == NatToString(ParseNat(s))
    decreases |s|
  {
    if |s| > 1 {
      var t := s[..|s| - 1];
      assert t[0] == s[0];
      DecimalUnique(t);
      var n := ParseNat(s);
      if ParseNat(t) == 0 {
        assert false;
      }
      assert n / 10 == ParseNat(t) && n % 10 == s[|s| - 1] as int - '0' as int;
      assert s == t + [s[|s| - 1]];
    }
  }

  /** The printed value is exactly the leaf's value: the text is the canonical
      numeral (digits, a minus sign only for a negative value, no leading
      zero), and reading it back gives the number. */
  lemma IntToStringRoundTrip(v: int)
    ensures IsNumeral(IntToString(v))
    ensures ParseInt(IntToString(v)) == v
    ensures forall s :: IsNumeral(s) && ParseInt(s) == v ==> s == IntToString(v)
  {
    forall s | IsNumeral(s) && ParseInt(s) == v ensures s == IntToString(v) {
      if s[0] == '-' {
        DecimalUnique(s[1..]);
        assert s == "-" + s[1..];
      } else {
        DecimalUnique(s);
      }
    }
    if v < 0 {
      NatToStringDigits(-v);
      assert IntToString(v)[1..] == NatToString(-v);
    } else {
      NatToStringDigits(v);
    }
  }

  /** The lines `t.print(prefix)` writes. */
  function Print(t: Tree, prefix: string): seq<string>
    decreases t, 1
  {
    match t
    case Leaf(n, v) => [Extend(prefix, n) + " == " + IntToString(v)]
    case Internal(n, cs) => Scan(PrintF(t, Extend(prefix, n)), [], |cs|)
  }

  /** print_f: applied to position i of `parent`, it appends what that child's
      `print` writes with the prefix the parent passes (by value). */
  function PrintF(parent: Tree, prefix: string): (seq<string>, nat) -> seq<string>
    decreases parent, 0
  {
    (out: seq<string>, i: nat) =>
      if parent.Internal? && i < |parent.children| then out + Print(parent.children[i], prefix) else out
  }

  /** An internal node writes no line of its own: it writes its children's
      lines one child after another, and every child gets the same prefix,
      the incoming one extended by the node's name. */
  lemma PrintInternal(n: string, cs: seq<Tree>, prefix: string)
    ensures Print(Internal(n, cs), prefix)
         == Flatten(seq(|cs|, i requires 0 <= i < |cs| => Print(cs[i], Extend(prefix, n))))
  {
    var blocks := seq(|cs|, i requires 0 <= i < |cs| => Print(cs[i], Extend(prefix, n)));
    ScanAppends(PrintF(Internal(n, cs), Extend(prefix, n)), blocks, [], |cs|);
    assert blocks[..|cs|] == blocks;
  }

  /** The prefix a leaf at the end of `path` receives from an ancestor that
      was handed `prefix`: Extend applied name after name. */
  function JoinPath(prefix: string, path: seq<string>): string
    decreases |path|
  {
    if path == [] then prefix else JoinPath(Extend(prefix, path[0]), path[1..])
  }

  /** The line printed for one leaf. */
  function Line(prefix: string, e: LeafEntry): string
  {
    JoinPath(prefix, e.path) + " == " + IntToString(e.val)
  }

  function Render(prefix: string, es: seq<LeafEntry>): seq<string>
  {
    seq(|es|, k requires 0 <= k < |es| => Line(prefix, es[k]))
  }

  lemma RenderUnder(prefix: string, n: string, es: seq<LeafEntry>)
    ensures Render(prefix, Under(n, es)) == Render(Extend(prefix, n), es)
  {
    forall k | 0 <= k < |es|
      ensures JoinPath(prefix, ([n] + es[k].path)) == JoinPath(Extend(prefix, n), es[k].path)
    {
      assert ([n] + es[k].path)[1..] == es[k].path;
    }
  }

  lemma {:induction false} RenderFlatten(prefix: string, ess: seq<seq<LeafEntry>>)
    ensures Render(prefix, Flatten(ess))
         == Flatten(seq(|ess|, i requires 0 <= i < |ess| => Render(prefix, ess[i])))
  {
    if ess != [] {
      RenderFlatten(prefix, ess[1..]);
      var rs := seq(|ess|, i requires 0 <= i < |ess| => Render(prefix, ess[i]));
      assert rs[1..] == seq(|ess| - 1, i requires 0 <= i < |ess| - 1 => Render(prefix, ess[1..][i]));
      assert Render(prefix, ess[0] + Flatten(ess[1..])) == Render(prefix, ess[0]) + Render(prefix, Flatten(ess[1..]));
    }
  }

  /** `t.print(prefix)` writes exactly one line per leaf, depth first and
      left to right; the line of a leaf is the incoming prefix extended by
      every name on the way down to the leaf, then " == " and its value. */
  lemma {:induction false} PrintLeaves(t: Tree, prefix: string)
    ensures Print(t, prefix) == Render(prefix, Leaves(t))
    decreases t
  {
    match t
    case Leaf(n, v) =>
      assert JoinPath(prefix, [n]) == Extend(prefix, n) by {
        assert [n][1..] == [];
      }
    case Internal(n, cs) =>
      PrintInternal(n, cs, prefix);
      var ess := seq(|cs|, i requires 0 <= i < |cs| => Under(n, Leaves(cs[i])));
      forall i | 0 <= i < |cs|
        ensures Print(cs[i], Extend(prefix, n)) == Render(prefix, ess[i])
      {
        PrintLeaves(cs[i], Extend(prefix, n));
        RenderUnder(prefix, n, Leaves(cs[i]));
      }
      RenderFlatten(prefix, ess);
      assert seq(|cs|, i requires 0 <= i < |cs| => Print(cs[i], Extend(prefix, n)))
          == seq(|ess|, i requires 0 <= i < |ess| => Render(prefix, ess[i]));
  }

  /** Names joined by single spaces. */
  function SpaceJoin(names: seq<string>): string
    decreases |names|
  {
    if names == [] then ""
    else if |names| == 1 then names[0]
    else names[0] + " " + SpaceJoin(names[1..])
  }

  /** With non-empty names, extending a prefix name after name gives the
      names joined by single spaces, after the prefix and one space, or with
      no leading space at all when the prefix is empty. */
  lemma {:induction false} JoinPathSpaced(prefix: string, path: seq<string>)
    requires path != []
    requires forall j :: 0 <= j < |path| ==> path[j] != ""
    ensures JoinPath(prefix, path) == (if prefix == "" then "" else prefix + " ") + SpaceJoin(path)
    decreases |path|
  {
    var lead := if prefix == "" then "" else prefix + " ";
    var next := Extend(prefix, path[0]);
    assert next == lead + path[0];
    if |path| > 1 {
      JoinPathSpaced(next, path[1..]);
      assert JoinPath(prefix, path) == (lead + path[0]) + " " + SpaceJoin(path[1..]);
    }
  }

  /** Every node of the tree has a non-empty name. */
  predicate Named(t: Tree)
    decreases t
  {
    match t
    case Leaf(n, _) => n != ""
    case Internal(n, cs) => n != "" && forall i :: 0 <= i < |cs| ==> Named(cs[i])
  }

  /** A path from the root to a leaf: at least the leaf's name, none empty. */
  predicate NamedPath(e: LeafEntry)
  {
    e.path != [] && forall j :: 0 <= j < |e.path| ==> e.path[j] != ""
  }

  lemma {:induction false} FlattenNamedPaths(ess: seq<seq<LeafEntry>>)
    requires forall i, e :: 0 <= i < |ess| && e in ess[i] ==> NamedPath(e)
    ensures forall e :: e in Flatten(ess) ==> NamedPath(e)
  {
    if ess != [] {
      FlattenNamedPaths(ess[1..]);
      assert forall e :: e in Flatten(ess) ==> e in ess[0] || e in Flatten(ess[1..]);
    }
  }

  lemma {:induction false} LeavesNamed(t: Tree)
    requires Named(t)
    ensures forall e :: e in Leaves(t) ==> NamedPath(e)
    decreases t
  {
    match t
    case Leaf(_, _) =>
    case Internal(n, cs) =>
      var ess := seq(|cs|, i requires 0 <= i < |cs| => Under(n, Leaves(cs[i])));
      forall i, e | 0 <= i < |ess| && e in ess[i]
        ensures NamedPath(e)
      {
        LeavesNamed(cs[i]);
        var k :| 0 <= k < |ess[i]| && ess[i][k] == e;
        assert Leaves(cs[i])[k] in Leaves(cs[i]);
        assert e.path == [n] + Leaves(cs[i])[k].path;
      }
      FlattenNamedPaths(ess);
  }

  /** The printed form of a tree whose names are not empty: line k is the
      prefix followed by one space (no space at all for the empty prefix),
      the names from the root down to the k-th leaf joined by single spaces,
      " == " and the leaf's value. */
  lemma PrintLines(t: Tree, prefix: string)
    requires Named(t)
    ensures |Print(t, prefix)| == |Leaves(t)|
    ensures forall k :: 0 <= k < |Leaves(t)| ==>
      Print(t, prefix)[k]
        == (if prefix == "" then "" else prefix + " ") + SpaceJoin(Leaves(t)[k].path)
           + " == " + IntToString(Leaves(t)[k].val)
  {
    PrintLeaves(t, prefix);
    LeavesNamed(t);
    forall k | 0 <= k < |Leaves(t)|
      ensures NamedPath(Leaves(t)[k])
    {
      assert Leaves(t)[k] in Leaves(t);
    }
    forall k | 0 <= k < |Leaves(t)|
      ensures JoinPath(prefix, Leaves(t)[k].path)
           == (if prefix == "" then "" else prefix + " ") + SpaceJoin(Leaves(t)[k].path)
    {
      JoinPathSpaced(prefix, Leaves(t)[k].path);
    }
  }
}
