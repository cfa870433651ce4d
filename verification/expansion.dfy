/**
  The expansion of `hierarchy!` (src/lib.rs:119-146) and of its two helper
  macros `__hierarchy_internals!` (src/lib.rs:150-167) and
  `__hierarchy_internals_impl!` (src/lib.rs:172-180), as functions from the
  parsed forest to the list of `From` impls the expansion contains, in the
  order the macro writes them.
*/
module Expansion {
  import opened Forest

  /** One token tree of the bracketed generics list, such as `'a`. */
  type Token = string

  /**
    One impl written by `__hierarchy_internals_impl!`:
    `impl<generics> From<grandchild> for root`, whose body is
    `<root>::from(<child>::from(g))`.
  */
  datatype Impl = Impl(generics: seq<Token>, root: Label, child: Label, grandchild: Label)

  /**
    `__hierarchy_internals!{ generics[root][child][grandchildren] }`: for each
    item of the block, first the impls for the item's own block (same `root`
    and `child`), then the impl for the item itself.
  */
  function Internals(generics: seq<Token>, root: Label, child: Label, grandchildren: seq<Node>): (r: seq<Impl>)
    ensures |r| == |Labels(grandchildren)|
    ensures forall k :: 0 <= k < |r| ==> r[k] == Impl(generics, root, child, Labels(grandchildren)[k])
    decreases grandchildren
  {
    if grandchildren == [] then []
    else
      (match grandchildren[0]
       case Leaf(_) => []
       case Branch(_, further) => Internals(generics, root, child, further))
      + [Impl(generics, root, child, grandchildren[0].name)]
      + Internals(generics, root, child, grandchildren[1..])
  }

  /**
    The second repetition of `hierarchy!` (src/lib.rs:136-142): one call of
    `__hierarchy_internals!` per child of `root` that is written with a block.
  */
  function ChildInternals(generics: seq<Token>, root: Label, children: seq<Node>): (r: seq<Impl>)
    ensures forall k :: 0 <= k < |r| ==> r[k].generics == generics && r[k].root == root
    ensures forall k :: 0 <= k < |r| ==> r[k].grandchild in Labels(children)
    decreases children
  {
    if children == [] then []
    else
      Unfold(children);
      (match children[0]
       case Leaf(_) => []
       case Branch(child, grandchildren) => Internals(generics, root, child, grandchildren))
      + ChildInternals(generics, root, children[1..])
  }

  /**
    `hierarchy!{ generics forest }`: for each root written with a block, the
    expansion of `hierarchy!` on the items of that block, then the impls from
    the descendants of each child to the root.
  */
  function Hierarchy(generics: seq<Token>, forest: seq<Node>): (r: seq<Impl>)
    ensures forall k :: 0 <= k < |r| ==> r[k].generics == generics
    decreases forest
  {
    if forest == [] then []
    else
      (match forest[0]
       case Leaf(_) => []
       case Branch(root, children) => Hierarchy(generics, children) + ChildInternals(generics, root, children))
      + Hierarchy(generics, forest[1..])
  }

  /** The same impls carrying the generics list `generics` instead of their own. */
  function Rebind(out: seq<Impl>, generics: seq<Token>): (r: seq<Impl>)
    ensures |r| == |out|
    ensures forall k :: 0 <= k < |r| ==> r[k].generics == generics
  {
    seq(|out|, k requires 0 <= k < |out| => out[k].(generics := generics))
  }
}
