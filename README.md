# RAPID tree-scan snippet, modelled in Dafny

The snippet stores data in an *inheritance tree*. An `InternalNode<Name, ChildNodes...>`
inherits its children as base classes. A `LeafNode<Name, T>` holds one value. A generic
scan (`inher_tree_scan` / `inher_tree_scan_recur`) walks the compile-time list of an
internal node's direct children. For each child it calls a functor's `apply`. Two functors
are modelled. `add_eq` drives `operator+=`, which adds one tree into another of the same
type leaf by leaf. `print_f` drives `print`, which writes one line per leaf with the names
on the path to that leaf.

The model has two layers.

- Values (`Trees`, `InheritanceScan`, `Addition`, `Printing`). A tree is the datatype
  `Tree = Leaf(name, val) | Internal(name, children)`. The scan is a higher-order fold
  over child positions. Each functor is a named function that returns the step the scan
  applies: `AddEq(b)` for `add_eq` and `PrintF(parent, prefix)` for `print_f`.
  `AddTree` and `Print` are the meanings of `+=` and `print`. They are built from the scan
  exactly as in the source.
- Objects (`Nodes`). `LeafNode` and `InternalNode` are classes. `+=` updates leaf values
  in place. The scan recursion is written as recursive methods (`AddEqRecur`,
  `PrintFRecur`), and each is proved equal to the value-level scan. A tree's structure is
  fixed by its C++ type, so names, child lists and footprints are constants. Only leaf
  values change.

`ExampleTree` is the tree `Bar` that `main` declares (one → A, B, two → (D, three → E),
F, G). It has a construction method and lemmas about printing and adding it.

## Model

| member | source | states |
|---|---|---|
| InheritanceScan.ScanRecur | rapid_snippit.cpp:76-104 | the scan from child i of n: nothing when i = n, otherwise apply to child i and go on from i+1; its properties are stated by `ScanLast`, `ScanVisitsInOrder` and `ScanAppends` |
| InheritanceScan.Scan | rapid_snippit.cpp:109-120 | a node with no children: the scan leaves the state untouched |
| InheritanceScan.ScanLast | rapid_snippit.cpp:81-104 | scanning n+1 children = scanning the first n, then one more apply to child n |
| InheritanceScan.ScanVisitsInOrder | rapid_snippit.cpp:81-104 | apply runs exactly once per direct child, in list order, on positions 0..n-1 only (never a grandchild) |
| InheritanceScan.ScanAppends | rapid_snippit.cpp:81-104 | a functor that only appends output makes the scan write the children's outputs in order |
| Trees.AddableIsSameType | rapid_snippit.cpp:128-135 | for a leaf or a node with children of a well-formed tree type, `+=` compiles exactly for an operand of the same type, since `add_eq::apply` binds the right operand as the left operand's own type |
| Trees.AddableChildless | rapid_snippit.cpp:176-181 | a node without children accepts a right operand of another name, because no `add_eq` step is instantiated |
| Trees.AddableLeafCount | rapid_snippit.cpp:176-177 | operands `+=` accepts have the same number of leaves |
| Addition.AddTree | rapid_snippit.cpp:176-181 | the value `a += b` leaves in `a`: a leaf adds the right value (lines 214-217), an internal node runs the scan with `AddEq(b)`; its properties are stated by `AddChildren`, `AddKeepsType` and `AddLeaves` |
| Addition.AddEq | rapid_snippit.cpp:128-135 | add_eq at position i replaces child i of the left node by child i of the left plus child i of the right; stated by `AddEqPrefix` |
| Addition.AddEqPrefix | rapid_snippit.cpp:128-135 | after add_eq has visited k children, those hold left+right and the rest are unchanged |
| Addition.AddChildren | rapid_snippit.cpp:176-181 | internal `+=`: left name kept; child i becomes left child i + right child i |
| Addition.AddKeepsType | rapid_snippit.cpp:176-181 | the sum has the left operand's type: same kinds, names and child lists |
| Addition.AddLeaves | rapid_snippit.cpp:214-217 | leaf k of the sum keeps the left path; its value is left value k + right value k |
| Printing.Print | rapid_snippit.cpp:184-191 | the lines `t.print(prefix)` writes: a leaf one line (lines 220-223), an internal node the print_f scan under its extended prefix; stated by `PrintInternal`, `PrintLeaves` and `PrintLines` |
| Printing.PrintF | rapid_snippit.cpp:150-156 | print_f at position i appends what child i prints under the parent's prefix; stated by `PrintInternal` |
| Printing.Extend | rapid_snippit.cpp:186-188 | the prefix a node hands on: the incoming prefix, a space only if it is non-empty, then the name; what repeated extension writes is stated by `JoinPathSpaced` and `PrintLines` |
| Printing.IntToString | rapid_snippit.cpp:222 | the text `std::cout << val` writes: non-empty, starting with '-' exactly for a negative value; `IntToStringRoundTrip` shows it is the canonical numeral of the value |
| Printing.PrintInternal | rapid_snippit.cpp:184-191 | an internal node prints no line of its own; its children print in order, all with the same extended prefix |
| Printing.PrintLeaves | rapid_snippit.cpp:220-223 | print writes one line per leaf, depth first; each line is the prefix extended along the path, " == ", then the value |
| Printing.JoinPathSpaced | rapid_snippit.cpp:186-188 | extending name by name = prefix, a space only if the prefix is non-empty, then the names joined by single spaces |
| Printing.PrintLines | rapid_snippit.cpp:221-222 | for non-empty names, line k is [prefix + " "] + names on path k joined by spaces + " == " + value k |
| Printing.IntToStringRoundTrip | rapid_snippit.cpp:222 | the printed text is a canonical numeral (digits, '-' only for a negative value, no leading zero), reads back as the value, and is the only canonical numeral of that value |
| Printing.DecimalUnique | rapid_snippit.cpp:222 | a canonical digit string is exactly the text written for the number it denotes |
| ExampleTree.BarPrint | rapid_snippit.cpp:256-270 | `bar.print("bar")` writes "bar one A == …" through "bar one G == …", including "bar one two three E == …" |
| ExampleTree.BarAdd | rapid_snippit.cpp:289 | `bar += foo` on two Bar values is accepted and adds leaf to leaf |
| ExampleTree.NewBar | rapid_snippit.cpp:272 | a freshly constructed Bar is a valid object tree whose leaves all hold zero |
| Nodes.LeafNode.constructor | rapid_snippit.cpp:212 | a new leaf holds the value-initialised zero |
| Nodes.LeafNode.AddAssign | rapid_snippit.cpp:214-217 | left val becomes old left val + right val; returns the left leaf; the right leaf is unchanged unless it is the left one |
| Nodes.LeafNode.Print | rapid_snippit.cpp:220-223 | the method writes the line the value-level Print gives |
| Nodes.InternalNode.constructor | rapid_snippit.cpp:166-173 | the node owns its children, which share no object |
| Nodes.InternalNode.AddAssign | rapid_snippit.cpp:176-181 | new value = AddTree(old left, old right); returns this; a separate right operand is unchanged; `x += x` doubles every leaf |
| Nodes.InternalNode.AddEqRecur | rapid_snippit.cpp:81-104 | the recursive add_eq scan from child i gives the value-level ScanRecur from i |
| Nodes.AddEqApply | rapid_snippit.cpp:131-134 | `get<Child>(a) += get<Child>(b)` adds child b into child a; a separate b is unchanged |
| Nodes.InternalNode.Print | rapid_snippit.cpp:184-191 | the method writes the lines the value-level Print gives |
| Nodes.InternalNode.PrintFRecur | rapid_snippit.cpp:101-102 | the recursive print_f scan from child i gives the value-level ScanRecur from i |
| Nodes.PrintFApply | rapid_snippit.cpp:153-155 | print_f::apply writes what the child's print writes with the prefix passed by value |

## Left out

- Random initialisation (`rand_gen_f`, `rand_gen`, `std::mt19937`, `std::normal_distribution`): it is nondeterministic and works in floating point.
- Float and double leaf payloads (B, D and F in `Bar`): every leaf value is an `int`, so floating-point addition and stream formatting of floats are not modelled.
- Nodes.LeafNode.AddAssign: values are unbounded integers, so the overflow of `int`/`long` addition in the source is not modelled.
- The compile-time machinery (tag dispatch on `mpl::bool_`, `mpl::vector`, `pop_front`/`deref`/`empty`, `mpl::c_str`, the `get<Child>` upcast). It is replaced by a runtime child list, position indices and string names. The static type check on `+=` operands becomes the preconditions `SameType`/`Addable`: `InternalNode::operator+=` is declared for a right operand of any name, but `add_eq::apply` takes it as the left operand's own type, so `Addable` admits another name only for a node without children.
- Tree types the compiler rejects. A `Tree` may list the same child type twice, which C++ refuses as a duplicate base, or have a direct child type that also occurs under a sibling, which makes `get<Child>` ambiguous so that neither `+=` nor `print` compiles. The model gives such trees a meaning (child by child, by position); every property stated holds for them too, and so for every tree the program accepts.
- Writing to `std::cout`: `print` returns its lines as a `seq<string>`, one string per `std::endl`.
- An `InternalNode` default-constructs its base subobjects. Here its constructor takes children that already exist, and `ExampleTree.NewBar` builds `Bar` bottom-up.
- The `main` driver is used only as the example tree `Bar`. Its sequence of prints is not modelled.
- Nodes.InternalNode.AddAssign: the right operand must be the same object or share no object with the left one. In C++ these are the only possible cases, because a node cannot contain a subobject of its own type.
