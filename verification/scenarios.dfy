/**
  The two hierarchies written in src/lib.rs: the documentation example
  (lines 94-115) and the error types of the test module (lines 258-283).
  Each is first worked out for its shape with the labels as parameters,
  then instantiated with the type names the source writes.
*/
module Scenarios {
  import opened Forest
  import opened Expansion
  import opened ExpansionProperties
  import opened Conversion

  // One step of each expansion function on a forest given by its first item.

  lemma HierarchyCons(generics: seq<Token>, h: Node, t: seq<Node>)
    ensures Hierarchy(generics, [h] + t) == Hierarchy(generics, [h]) + Hierarchy(generics, t)
  {
    assert ([h] + t)[1..] == t;
    assert [h][1..] == [];
  }

  lemma HierarchyOneRoot(generics: seq<Token>, root: Label, children: seq<Node>)
    ensures Hierarchy(generics, [Branch(root, children)]) ==
      Hierarchy(generics, children) + ChildInternals(generics, root, children)
  {
    assert [Branch(root, children)][1..] == [];
  }

  lemma ChildInternalsCons(generics: seq<Token>, root: Label, h: Node, t: seq<Node>)
    ensures ChildInternals(generics, root, [h] + t) ==
      ChildInternals(generics, root, [h]) + ChildInternals(generics, root, t)
  {
    assert ([h] + t)[1..] == t;
    assert [h][1..] == [];
  }

  lemma ChildInternalsOne(generics: seq<Token>, root: Label, child: Label, grandchildren: seq<Node>)
    ensures ChildInternals(generics, root, [Branch(child, grandchildren)]) == Internals(generics, root, child, grandchildren)
  {
    assert [Branch(child, grandchildren)][1..] == [];
  }

  lemma InternalsCons(generics: seq<Token>, root: Label, child: Label, h: Node, t: seq<Node>)
    ensures Internals(generics, root, child, [h] + t) ==
      Internals(generics, root, child, Children(h)) + [Impl(generics, root, child, h.name)] + Internals(generics, root, child, t)
  {
    assert ([h] + t)[1..] == t;
  }

  /** `__hierarchy_internals!` on a block of one item written without a block. */
  lemma InternalsLeaf(generics: seq<Token>, root: Label, child: Label, x: Label)
    ensures Internals(generics, root, child, [Leaf(x)]) == [Impl(generics, root, child, x)]
  {
    InternalsCons(generics, root, child, Leaf(x), []);
    assert [Leaf(x)] == [Leaf(x)] + [];
  }

  /** `__hierarchy_internals!` on a block of two items written without a block. */
  lemma InternalsLeaves(generics: seq<Token>, root: Label, child: Label, x: Label, y: Label)
    ensures Internals(generics, root, child, [Leaf(x), Leaf(y)]) ==
      [Impl(generics, root, child, x), Impl(generics, root, child, y)]
  {
    InternalsCons(generics, root, child, Leaf(x), [Leaf(y)]);
    assert [Leaf(x), Leaf(y)] == [Leaf(x)] + [Leaf(y)];
    InternalsLeaf(generics, root, child, y);
  }

  lemma LabelsCons(h: Node, t: seq<Node>)
    ensures Labels([h] + t) == Labels(Children(h)) + [h.name] + Labels(t)
  {
    Unfold([h] + t);
    assert ([h] + t)[1..] == t;
  }

  /** Chaining along a path of three edges. */
  lemma ChainThree<V>(edge: (Label, Label, V) -> V, g: Label, c1: Label, c2: Label, p: Label, v: V)
    ensures Chain(edge, [g, c1, c2, p], v) == edge(p, c2, edge(c2, c1, edge(c1, g, v)))
  {
    ChainOneEdge(edge, g, c1, v);
    ChainSnoc(edge, [g, c1], c2, v);
    assert [g, c1] + [c2] == [g, c1, c2];
    ChainSnoc(edge, [g, c1, c2], p, v);
    assert [g, c1, c2] + [p] == [g, c1, c2, p];
  }

  /** An impl whose tree path climbs three edges converts along those three edges. */
  lemma ThreeEdgeConversion<V(!new)>(gen: seq<Token>, forest: seq<Node>, edge: (Label, Label, V) -> V, n: nat, v: V,
                               g: Label, c1: Label, c2: Label, p: Label)
    requires Distinct(Labels(forest)) && n < |Hierarchy(gen, forest)|
    requires Hierarchy(gen, forest)[n] == Impl(gen, p, c2, g)
    requires Below(forest, p, g) && TreePath(forest, p, g) == [g, c1, c2, p]
    ensures Realized(gen, forest, edge, n, v) == edge(p, c2, edge(c2, c1, edge(c1, g, v)))
  {
    Composition(gen, forest, edge, n, v);
    ChainThree(edge, g, c1, c2, p, v);
  }

  // ---------------------------------------------------------------------
  // The documentation example: A { B { E, F { J, K } }, C { G }, D { H, I { L } } }
  // ---------------------------------------------------------------------

  /** The shape of the documentation example, with its twelve labels as parameters. */
  function DocShape(a: Label, b: Label, c: Label, d: Label, e: Label, f: Label,
                    g: Label, h: Label, i: Label, j: Label, k: Label, l: Label): seq<Node>
  {
    [Branch(a, [
      Branch(b, [Leaf(e), Branch(f, [Leaf(j), Leaf(k)])]),
      Branch(c, [Leaf(g)]),
      Branch(d, [Leaf(h), Branch(i, [Leaf(l)])])])]
  }

  /** Below `B`, the expansion writes the impls from `J` and `K` through `F`. */
  lemma DocShapeBelowB(gen: seq<Token>, b: Label, e: Label, f: Label, j: Label, k: Label)
    ensures Hierarchy(gen, [Branch(b, [Leaf(e), Branch(f, [Leaf(j), Leaf(k)])])]) ==
      [Impl(gen, b, f, j), Impl(gen, b, f, k)]
  {
    var jk := [Leaf(j), Leaf(k)];
    var nf := Branch(f, jk);
    assert jk == [Leaf(j)] + [Leaf(k)];
    assert [Leaf(k)] == [Leaf(k)] + [];
    assert [Leaf(e), nf] == [Leaf(e)] + [nf];
    HierarchyOneRoot(gen, f, jk);
    LeafRootSilent(gen, j, [Leaf(k)]);
    LeafRootSilent(gen, k, []);
    LeafChildSilent(gen, f, j, [Leaf(k)]);
    LeafChildSilent(gen, f, k, []);
    LeafRootSilent(gen, e, [nf]);
    LeafChildSilent(gen, b, e, [nf]);
    ChildInternalsOne(gen, b, f, jk);
    InternalsLeaves(gen, b, f, j, k);
    HierarchyOneRoot(gen, b, [Leaf(e), nf]);
  }

  /** Below `C`, whose block holds only `G`, the expansion writes nothing. */
  lemma DocShapeBelowC(gen: seq<Token>, c: Label, g: Label)
    ensures Hierarchy(gen, [Branch(c, [Leaf(g)])]) == []
  {
    assert [Leaf(g)] == [Leaf(g)] + [];
    HierarchyOneRoot(gen, c, [Leaf(g)]);
    LeafRootSilent(gen, g, []);
    LeafChildSilent(gen, c, g, []);
  }

  /** Below `D`, the expansion writes the impl from `L` through `I`. */
  lemma DocShapeBelowD(gen: seq<Token>, d: Label, h: Label, i: Label, l: Label)
    ensures Hierarchy(gen, [Branch(d, [Leaf(h), Branch(i, [Leaf(l)])])]) == [Impl(gen, d, i, l)]
  {
    var ni := Branch(i, [Leaf(l)]);
    assert [Leaf(l)] == [Leaf(l)] + [];
    assert [Leaf(h), ni] == [Leaf(h)] + [ni];
    HierarchyOneRoot(gen, i, [Leaf(l)]);
    LeafRootSilent(gen, l, []);
    LeafChildSilent(gen, i, l, []);
    LeafRootSilent(gen, h, [ni]);
    LeafChildSilent(gen, d, h, [ni]);
    ChildInternalsOne(gen, d, i, [Leaf(l)]);
    InternalsLeaf(gen, d, i, l);
    HierarchyOneRoot(gen, d, [Leaf(h), ni]);
  }

  /** The impls from the descendants of `B` to `A`: the deeper ones before `F` itself. */
  lemma DocShapeThroughB(gen: seq<Token>, a: Label, b: Label, e: Label, f: Label, j: Label, k: Label)
    ensures Internals(gen, a, b, [Leaf(e), Branch(f, [Leaf(j), Leaf(k)])]) ==
      [Impl(gen, a, b, e), Impl(gen, a, b, j), Impl(gen, a, b, k), Impl(gen, a, b, f)]
  {
    var nf := Branch(f, [Leaf(j), Leaf(k)]);
    assert [nf] == [nf] + [];
    assert [Leaf(e), nf] == [Leaf(e)] + [nf];
    InternalsLeaves(gen, a, b, j, k);
    InternalsCons(gen, a, b, nf, []);
    InternalsCons(gen, a, b, Leaf(e), [nf]);
  }

  /** The impls from the descendants of `D` to `A`. */
  lemma DocShapeThroughD(gen: seq<Token>, a: Label, d: Label, h: Label, i: Label, l: Label)
    ensures Internals(gen, a, d, [Leaf(h), Branch(i, [Leaf(l)])]) ==
      [Impl(gen, a, d, h), Impl(gen, a, d, l), Impl(gen, a, d, i)]
  {
    var ni := Branch(i, [Leaf(l)]);
    assert [ni] == [ni] + [];
    assert [Leaf(h), ni] == [Leaf(h)] + [ni];
    InternalsLeaf(gen, a, d, l);
    InternalsCons(gen, a, d, ni, []);
    InternalsCons(gen, a, d, Leaf(h), [ni]);
  }

  /** The impls the recursive expansion writes for the block of `A`: those below `B` and below `D`. */
  lemma DocShapeBelowRoot(gen: seq<Token>, b: Label, c: Label, d: Label, e: Label, f: Label,
                          g: Label, h: Label, i: Label, j: Label, k: Label, l: Label)
    ensures Hierarchy(gen, [Branch(b, [Leaf(e), Branch(f, [Leaf(j), Leaf(k)])]), Branch(c, [Leaf(g)]),
                            Branch(d, [Leaf(h), Branch(i, [Leaf(l)])])]) ==
      [Impl(gen, b, f, j), Impl(gen, b, f, k), Impl(gen, d, i, l)]
  {
    var nb := Branch(b, [Leaf(e), Branch(f, [Leaf(j), Leaf(k)])]);
    var nc := Branch(c, [Leaf(g)]);
    var nd := Branch(d, [Leaf(h), Branch(i, [Leaf(l)])]);
    assert [nb, nc, nd] == [nb] + [nc, nd];
    assert [nc, nd] == [nc] + [nd];
    DocShapeBelowB(gen, b, e, f, j, k);
    DocShapeBelowC(gen, c, g);
    DocShapeBelowD(gen, d, h, i, l);
    HierarchyCons(gen, nb, [nc, nd]);
    HierarchyCons(gen, nc, [nd]);
  }

  /** The impls from below `C` and `D` to `A`. */
  lemma DocShapeToRootCD(gen: seq<Token>, a: Label, c: Label, d: Label, g: Label, h: Label, i: Label, l: Label)
    ensures ChildInternals(gen, a, [Branch(c, [Leaf(g)]), Branch(d, [Leaf(h), Branch(i, [Leaf(l)])])]) ==
      [Impl(gen, a, c, g), Impl(gen, a, d, h), Impl(gen, a, d, l), Impl(gen, a, d, i)]
  {
    var nc := Branch(c, [Leaf(g)]);
    var nd := Branch(d, [Leaf(h), Branch(i, [Leaf(l)])]);
    assert [nc, nd] == [nc] + [nd];
    DocShapeThroughD(gen, a, d, h, i, l);
    InternalsLeaf(gen, a, c, g);
    ChildInternalsOne(gen, a, c, nc.children);
    ChildInternalsOne(gen, a, d, nd.children);
    ChildInternalsCons(gen, a, nc, [nd]);
  }

  /** The impls from the grandchildren of `A` and below to `A`, child by child. */
  lemma DocShapeToRoot(gen: seq<Token>, a: Label, b: Label, c: Label, d: Label, e: Label, f: Label,
                       g: Label, h: Label, i: Label, j: Label, k: Label, l: Label)
    ensures ChildInternals(gen, a, [Branch(b, [Leaf(e), Branch(f, [Leaf(j), Leaf(k)])]), Branch(c, [Leaf(g)]),
                                    Branch(d, [Leaf(h), Branch(i, [Leaf(l)])])]) == [
        Impl(gen, a, b, e), Impl(gen, a, b, j), Impl(gen, a, b, k), Impl(gen, a, b, f),
        Impl(gen, a, c, g),
        Impl(gen, a, d, h), Impl(gen, a, d, l), Impl(gen, a, d, i)]
  {
    var nb := Branch(b, [Leaf(e), Branch(f, [Leaf(j), Leaf(k)])]);
    var nc := Branch(c, [Leaf(g)]);
    var nd := Branch(d, [Leaf(h), Branch(i, [Leaf(l)])]);
    assert [nb, nc, nd] == [nb] + [nc, nd];
    DocShapeThroughB(gen, a, b, e, f, j, k);
    DocShapeToRootCD(gen, a, c, d, g, h, i, l);
    ChildInternalsOne(gen, a, b, nb.children);
    ChildInternalsCons(gen, a, nb, [nc, nd]);
    Append4To4(Impl(gen, a, b, e), Impl(gen, a, b, j), Impl(gen, a, b, k), Impl(gen, a, b, f),
      Impl(gen, a, c, g), Impl(gen, a, d, h), Impl(gen, a, d, l), Impl(gen, a, d, i));
  }

  /** Four impls followed by four more, as one list of eight. */
  lemma Append4To4(x1: Impl, x2: Impl, x3: Impl, x4: Impl, y1: Impl, y2: Impl, y3: Impl, y4: Impl)
    ensures [x1, x2, x3, x4] + [y1, y2, y3, y4] == [x1, x2, x3, x4, y1, y2, y3, y4]
  {
  }

  /** Three impls followed by eight more, as one list of eleven. */
  lemma Append3To8(x1: Impl, x2: Impl, x3: Impl, y1: Impl, y2: Impl, y3: Impl, y4: Impl,
                   y5: Impl, y6: Impl, y7: Impl, y8: Impl)
    ensures [x1, x2, x3] + [y1, y2, y3, y4, y5, y6, y7, y8] == [x1, x2, x3, y1, y2, y3, y4, y5, y6, y7, y8]
  {
  }

  /**
    A forest of the documentation example's shape expands to eleven impls:
    first those below `B` and `D`, then those to `A`, each subtree's deeper
    descendants before the subtree's own child.
  */
  lemma DocShapeExpansion(gen: seq<Token>, a: Label, b: Label, c: Label, d: Label, e: Label, f: Label,
                          g: Label, h: Label, i: Label, j: Label, k: Label, l: Label)
    ensures Hierarchy(gen, DocShape(a, b, c, d, e, f, g, h, i, j, k, l)) == [
      Impl(gen, b, f, j), Impl(gen, b, f, k),
      Impl(gen, d, i, l),
      Impl(gen, a, b, e), Impl(gen, a, b, j), Impl(gen, a, b, k), Impl(gen, a, b, f),
      Impl(gen, a, c, g),
      Impl(gen, a, d, h), Impl(gen, a, d, l), Impl(gen, a, d, i)]
  {
    var root := DocShape(a, b, c, d, e, f, g, h, i, j, k, l)[0];
    DocShapeBelowRoot(gen, b, c, d, e, f, g, h, i, j, k, l);
    DocShapeToRoot(gen, a, b, c, d, e, f, g, h, i, j, k, l);
    HierarchyOneRoot(gen, a, root.children);
    Append3To8(Impl(gen, b, f, j), Impl(gen, b, f, k), Impl(gen, d, i, l),
      Impl(gen, a, b, e), Impl(gen, a, b, j), Impl(gen, a, b, k), Impl(gen, a, b, f),
      Impl(gen, a, c, g),
      Impl(gen, a, d, h), Impl(gen, a, d, l), Impl(gen, a, d, i));
  }

  /** The labels of `B` and below it, in post-order. */
  lemma DocShapeLabelsB(b: Label, e: Label, f: Label, j: Label, k: Label)
    ensures Labels([Leaf(j), Leaf(k)]) == [j, k]
    ensures Labels([Leaf(e), Branch(f, [Leaf(j), Leaf(k)])]) == [e, j, k, f]
    ensures Labels([Branch(b, [Leaf(e), Branch(f, [Leaf(j), Leaf(k)])])]) == [e, j, k, f, b]
  {
    var nf := Branch(f, [Leaf(j), Leaf(k)]);
    var nb := Branch(b, [Leaf(e), nf]);
    assert [Leaf(j), Leaf(k)] == [Leaf(j)] + [Leaf(k)];
    LabelsCons(Leaf(j), [Leaf(k)]);
    LabelsCons(Leaf(k), []);
    assert [Leaf(k)] == [Leaf(k)] + [];
    LabelsCons(nf, []);
    assert [nf] == [nf] + [];
    LabelsCons(Leaf(e), [nf]);
    assert [Leaf(e), nf] == [Leaf(e)] + [nf];
    LabelsCons(nb, []);
    assert [nb] == [nb] + [];
  }

  /** The labels of `C`, `D` and below them, in post-order. */
  lemma DocShapeLabelsCD(c: Label, d: Label, g: Label, h: Label, i: Label, l: Label)
    ensures Labels([Branch(c, [Leaf(g)]), Branch(d, [Leaf(h), Branch(i, [Leaf(l)])])]) == [g, c, h, l, i, d]
  {
    var ni := Branch(i, [Leaf(l)]);
    var nc := Branch(c, [Leaf(g)]);
    var nd := Branch(d, [Leaf(h), ni]);
    LabelsCons(Leaf(g), []);
    assert [Leaf(g)] == [Leaf(g)] + [];
    LabelsCons(Leaf(l), []);
    assert [Leaf(l)] == [Leaf(l)] + [];
    LabelsCons(ni, []);
    assert [ni] == [ni] + [];
    LabelsCons(Leaf(h), [ni]);
    assert [Leaf(h), ni] == [Leaf(h)] + [ni];
    LabelsCons(nd, []);
    assert [nd] == [nd] + [];
    LabelsCons(nc, [nd]);
    assert [nc, nd] == [nc] + [nd];
  }

  /** The labels of a forest of three trees: those of the first, then those of the other two. */
  lemma LabelsOfThree(x: Node, y: Node, z: Node)
    ensures Labels([x, y, z]) == Labels([x]) + Labels([y, z])
  {
    LabelsCons(x, [y, z]);
    assert [x, y, z] == [x] + [y, z];
    LabelsCons(x, []);
    assert [x] == [x] + [];
  }

  lemma Append5To6(x1: Label, x2: Label, x3: Label, x4: Label, x5: Label,
                   y1: Label, y2: Label, y3: Label, y4: Label, y5: Label, y6: Label)
    ensures [x1, x2, x3, x4, x5] + [y1, y2, y3, y4, y5, y6] == [x1, x2, x3, x4, x5, y1, y2, y3, y4, y5, y6]
  {
  }

  /** The labels below the documentation example's root, in post-order. */
  lemma DocShapeLabelsBelowRoot(b: Label, c: Label, d: Label, e: Label, f: Label,
                                g: Label, h: Label, i: Label, j: Label, k: Label, l: Label)
    ensures Labels([Branch(b, [Leaf(e), Branch(f, [Leaf(j), Leaf(k)])]), Branch(c, [Leaf(g)]),
                    Branch(d, [Leaf(h), Branch(i, [Leaf(l)])])]) == [e, j, k, f, b, g, c, h, l, i, d]
  {
    var nb := Branch(b, [Leaf(e), Branch(f, [Leaf(j), Leaf(k)])]);
    var nc := Branch(c, [Leaf(g)]);
    var nd := Branch(d, [Leaf(h), Branch(i, [Leaf(l)])]);
    DocShapeLabelsB(b, e, f, j, k);
    DocShapeLabelsCD(c, d, g, h, i, l);
    LabelsOfThree(nb, nc, nd);
    Append5To6(e, j, k, f, b, g, c, h, l, i, d);
  }

  /** The labels of the documentation example's shape, in post-order. */
  lemma DocShapeLabels(a: Label, b: Label, c: Label, d: Label, e: Label, f: Label,
                       g: Label, h: Label, i: Label, j: Label, k: Label, l: Label)
    ensures Labels([Leaf(e), Branch(f, [Leaf(j), Leaf(k)])]) == [e, j, k, f]
    ensures Labels(DocShape(a, b, c, d, e, f, g, h, i, j, k, l)[0].children) == [e, j, k, f, b, g, c, h, l, i, d]
    ensures Labels(DocShape(a, b, c, d, e, f, g, h, i, j, k, l)) == [e, j, k, f, b, g, c, h, l, i, d, a]
  {
    var root := DocShape(a, b, c, d, e, f, g, h, i, j, k, l)[0];
    DocShapeLabelsB(b, e, f, j, k);
    DocShapeLabelsBelowRoot(b, c, d, e, f, g, h, i, j, k, l);
    LabelsCons(root, []);
    assert DocShape(a, b, c, d, e, f, g, h, i, j, k, l) == [root] + [];
  }

  /** The tree path from `K` up to `A`, when `K` differs from the labels it passes. */
  lemma DocShapePath(a: Label, b: Label, c: Label, d: Label, e: Label, f: Label,
                     g: Label, h: Label, i: Label, j: Label, k: Label, l: Label)
    requires b != k && e != k && f != k && j != k
    ensures var root := DocShape(a, b, c, d, e, f, g, h, i, j, k, l)[0];
      k in Labels(Children(root)) && PathFrom(root, k) == [k, f, b, a]
  {
    var nf := Branch(f, [Leaf(j), Leaf(k)]);
    var nb := Branch(b, [Leaf(e), nf]);
    DocShapeLabels(a, b, c, d, e, f, g, h, i, j, k, l);
    DocShapeLabelsB(b, e, f, j, k);
    LabelsCons(Leaf(k), []);
    assert [Leaf(k)] == [Leaf(k)] + [];
    LabelsCons(nf, []);
    assert [nf] == [nf] + [];
    assert PathIn([Leaf(k)], k) == [k];
    assert PathIn([Leaf(j), Leaf(k)], k) == [k];
    assert PathIn([nf], k) == [k, f];
    assert PathIn([Leaf(e), nf], k) == [k, f];
    assert PathIn(DocShape(a, b, c, d, e, f, g, h, i, j, k, l)[0].children, k) == [k, f, b];
  }

  /** With distinct labels, the tree path from `K` up to `A` passes `F` and `B`. */
  lemma DocShapeTreePath(a: Label, b: Label, c: Label, d: Label, e: Label, f: Label,
                         g: Label, h: Label, i: Label, j: Label, k: Label, l: Label)
    requires Distinct([e, j, k, f, b, g, c, h, l, i, d, a])
    ensures var forest := DocShape(a, b, c, d, e, f, g, h, i, j, k, l);
      Distinct(Labels(forest)) && Below(forest, a, k) && TreePath(forest, a, k) == [k, f, b, a]
  {
    var forest := DocShape(a, b, c, d, e, f, g, h, i, j, k, l);
    var labels := [e, j, k, f, b, g, c, h, l, i, d, a];
    assert labels[1] == j && labels[2] == k && labels[0] == e && labels[3] == f && labels[4] == b;
    DocShapeLabels(a, b, c, d, e, f, g, h, i, j, k, l);
    DocShapePath(a, b, c, d, e, f, g, h, i, j, k, l);
    assert forest[0] in forest;
    RootsAreNodes(forest, forest[0]);
    TreePathAt(forest, forest[0], k);
  }

  /**
    In a forest of the documentation example's shape with distinct labels,
    the impl `From<K> for A` is the sixth written, and converts through `F`
    and `B`, one written edge at a time.
  */
  lemma DocShapeConversion<V(!new)>(edge: (Label, Label, V) -> V, v: V, gen: seq<Token>,
                              a: Label, b: Label, c: Label, d: Label, e: Label, f: Label,
                              g: Label, h: Label, i: Label, j: Label, k: Label, l: Label)
    requires Distinct([e, j, k, f, b, g, c, h, l, i, d, a])
    ensures var out := Hierarchy(gen, DocShape(a, b, c, d, e, f, g, h, i, j, k, l));
      |out| == 11 && out[5] == Impl(gen, a, b, k)
    ensures Realized(gen, DocShape(a, b, c, d, e, f, g, h, i, j, k, l), edge, 5, v) ==
      edge(a, b, edge(b, f, edge(f, k, v)))
  {
    var forest := DocShape(a, b, c, d, e, f, g, h, i, j, k, l);
    DocShapeExpansion(gen, a, b, c, d, e, f, g, h, i, j, k, l);
    var out := Hierarchy(gen, forest);
    assert |out| == 11 && out[5] == Impl(gen, a, b, k);
    DocShapeTreePath(a, b, c, d, e, f, g, h, i, j, k, l);
    ThreeEdgeConversion(gen, forest, edge, 5, v, k, f, b, a);
  }

  /** The documentation example, with the type names it writes. */
  const DocForest: seq<Node> := DocShape("A", "B", "C", "D", "E", "F", "G", "H", "I", "J", "K", "L")

  /** The documentation example expands to exactly eleven impls, in this order. */
  lemma DocExpansion()
    ensures Hierarchy([], DocForest) == [
      Impl([], "B", "F", "J"), Impl([], "B", "F", "K"),
      Impl([], "D", "I", "L"),
      Impl([], "A", "B", "E"), Impl([], "A", "B", "J"), Impl([], "A", "B", "K"), Impl([], "A", "B", "F"),
      Impl([], "A", "C", "G"),
      Impl([], "A", "D", "H"), Impl([], "A", "D", "L"), Impl([], "A", "D", "I")]
  {
    DocShapeExpansion([], "A", "B", "C", "D", "E", "F", "G", "H", "I", "J", "K", "L");
  }

  /** No type is named twice in the documentation example. */
  lemma DocDistinct()
    ensures Distinct(["E", "J", "K", "F", "B", "G", "C", "H", "L", "I", "D", "A"])
  {
  }

  /** `A::from(K)` at src/lib.rs:111 converts through `F` and `B`, one written edge at a time. */
  lemma DocAFromK<V(!new)>(edge: (Label, Label, V) -> V, v: V)
    ensures |Hierarchy([], DocForest)| == 11 && Hierarchy([], DocForest)[5] == Impl([], "A", "B", "K")
    ensures Realized([], DocForest, edge, 5, v) == edge("A", "B", edge("B", "F", edge("F", "K", v)))
  {
    DocDistinct();
    DocShapeConversion(edge, v, [], "A", "B", "C", "D", "E", "F", "G", "H", "I", "J", "K", "L");
  }

  // ---------------------------------------------------------------------
  // The test module: GlobalError<'a> { ShapeError { CircleError, RectangleError { SquareError } },
  //                                    ColorError<'a> { RedError<'a>, BlueError<'a> } }
  // ---------------------------------------------------------------------

  /** The shape of the test hierarchy, with its eight labels as parameters. */
  function TestShape(gl: Label, sh: Label, ci: Label, re: Label, sq: Label, co: Label, rd: Label, bl: Label): seq<Node>
  {
    [Branch(gl, [
      Branch(sh, [Leaf(ci), Branch(re, [Leaf(sq)])]),
      Branch(co, [Leaf(rd), Leaf(bl)])])]
  }

  /** Below the root, the expansion writes one impl, from `SquareError` through `RectangleError`. */
  lemma TestShapeBelow(gen: seq<Token>, sh: Label, ci: Label, re: Label, sq: Label, co: Label, rd: Label, bl: Label)
    ensures Hierarchy(gen, [Branch(sh, [Leaf(ci), Branch(re, [Leaf(sq)])]), Branch(co, [Leaf(rd), Leaf(bl)])]) ==
      [Impl(gen, sh, re, sq)]
  {
    var rect := Branch(re, [Leaf(sq)]);
    var shape := Branch(sh, [Leaf(ci), rect]);
    var color := Branch(co, [Leaf(rd), Leaf(bl)]);
    assert [Leaf(sq)] == [Leaf(sq)] + [];
    assert [Leaf(ci), rect] == [Leaf(ci)] + [rect];
    assert [Leaf(rd), Leaf(bl)] == [Leaf(rd)] + [Leaf(bl)];
    assert [Leaf(bl)] == [Leaf(bl)] + [];
    assert [shape, color] == [shape] + [color];
    HierarchyOneRoot(gen, re, [Leaf(sq)]);
    LeafRootSilent(gen, sq, []);
    LeafChildSilent(gen, re, sq, []);
    LeafRootSilent(gen, ci, [rect]);
    LeafChildSilent(gen, sh, ci, [rect]);
    ChildInternalsOne(gen, sh, re, [Leaf(sq)]);
    InternalsLeaf(gen, sh, re, sq);
    HierarchyOneRoot(gen, sh, [Leaf(ci), rect]);
    HierarchyOneRoot(gen, co, [Leaf(rd), Leaf(bl)]);
    LeafRootSilent(gen, rd, [Leaf(bl)]);
    LeafRootSilent(gen, bl, []);
    LeafChildSilent(gen, co, rd, [Leaf(bl)]);
    LeafChildSilent(gen, co, bl, []);
    HierarchyCons(gen, shape, [color]);
  }

  /** The impls from the descendants of `ShapeError` to the root. */
  lemma TestShapeThroughShape(gen: seq<Token>, gl: Label, sh: Label, ci: Label, re: Label, sq: Label)
    ensures Internals(gen, gl, sh, [Leaf(ci), Branch(re, [Leaf(sq)])]) ==
      [Impl(gen, gl, sh, ci), Impl(gen, gl, sh, sq), Impl(gen, gl, sh, re)]
  {
    var rect := Branch(re, [Leaf(sq)]);
    assert [rect] == [rect] + [];
    assert [Leaf(ci), rect] == [Leaf(ci)] + [rect];
    InternalsLeaf(gen, gl, sh, sq);
    InternalsCons(gen, gl, sh, rect, []);
    InternalsCons(gen, gl, sh, Leaf(ci), [rect]);
  }

  /** The impls from the grandchildren of the root and below to the root. */
  lemma TestShapeAtRoot(gen: seq<Token>, gl: Label, sh: Label, ci: Label, re: Label, sq: Label, co: Label, rd: Label, bl: Label)
    ensures ChildInternals(gen, gl, [Branch(sh, [Leaf(ci), Branch(re, [Leaf(sq)])]), Branch(co, [Leaf(rd), Leaf(bl)])]) == [
      Impl(gen, gl, sh, ci), Impl(gen, gl, sh, sq), Impl(gen, gl, sh, re),
      Impl(gen, gl, co, rd), Impl(gen, gl, co, bl)]
  {
    var shape := Branch(sh, [Leaf(ci), Branch(re, [Leaf(sq)])]);
    var color := Branch(co, [Leaf(rd), Leaf(bl)]);
    assert [shape, color] == [shape] + [color];
    TestShapeThroughShape(gen, gl, sh, ci, re, sq);
    InternalsLeaves(gen, gl, co, rd, bl);
    ChildInternalsOne(gen, gl, sh, shape.children);
    ChildInternalsOne(gen, gl, co, color.children);
    ChildInternalsCons(gen, gl, shape, [color]);
  }

  /** One impl followed by five more, as one list of six. */
  lemma Append1To5(x: Impl, y1: Impl, y2: Impl, y3: Impl, y4: Impl, y5: Impl)
    ensures [x] + [y1, y2, y3, y4, y5] == [x, y1, y2, y3, y4, y5]
  {
  }

  /** A forest of the test hierarchy's shape expands to six impls, in this order. */
  lemma TestShapeExpansion(gen: seq<Token>, gl: Label, sh: Label, ci: Label, re: Label, sq: Label, co: Label, rd: Label, bl: Label)
    ensures Hierarchy(gen, TestShape(gl, sh, ci, re, sq, co, rd, bl)) == [
      Impl(gen, sh, re, sq),
      Impl(gen, gl, sh, ci), Impl(gen, gl, sh, sq), Impl(gen, gl, sh, re),
      Impl(gen, gl, co, rd), Impl(gen, gl, co, bl)]
  {
    var kids := [Branch(sh, [Leaf(ci), Branch(re, [Leaf(sq)])]), Branch(co, [Leaf(rd), Leaf(bl)])];
    TestShapeBelow(gen, sh, ci, re, sq, co, rd, bl);
    TestShapeAtRoot(gen, gl, sh, ci, re, sq, co, rd, bl);
    HierarchyOneRoot(gen, gl, kids);
    Append1To5(Impl(gen, sh, re, sq),
      Impl(gen, gl, sh, ci), Impl(gen, gl, sh, sq), Impl(gen, gl, sh, re),
      Impl(gen, gl, co, rd), Impl(gen, gl, co, bl));
  }

  /** The labels of `ShapeError` and below it, in post-order. */
  lemma TestShapeLabelsShape(sh: Label, ci: Label, re: Label, sq: Label)
    ensures Labels([Leaf(sq)]) == [sq]
    ensures Labels([Leaf(ci), Branch(re, [Leaf(sq)])]) == [ci, sq, re]
    ensures Labels([Branch(sh, [Leaf(ci), Branch(re, [Leaf(sq)])])]) == [ci, sq, re, sh]
  {
    var rect := Branch(re, [Leaf(sq)]);
    var shape := Branch(sh, [Leaf(ci), rect]);
    LabelsCons(Leaf(sq), []);
    assert [Leaf(sq)] == [Leaf(sq)] + [];
    LabelsCons(rect, []);
    assert [rect] == [rect] + [];
    LabelsCons(Leaf(ci), [rect]);
    assert [Leaf(ci), rect] == [Leaf(ci)] + [rect];
    LabelsCons(shape, []);
    assert [shape] == [shape] + [];
  }

  /** The labels of `ColorError<'a>` and below it, in post-order. */
  lemma TestShapeLabelsColor(co: Label, rd: Label, bl: Label)
    ensures Labels([Branch(co, [Leaf(rd), Leaf(bl)])]) == [rd, bl, co]
  {
    var color := Branch(co, [Leaf(rd), Leaf(bl)]);
    LabelsCons(Leaf(bl), []);
    assert [Leaf(bl)] == [Leaf(bl)] + [];
    LabelsCons(Leaf(rd), [Leaf(bl)]);
    assert [Leaf(rd), Leaf(bl)] == [Leaf(rd)] + [Leaf(bl)];
    LabelsCons(color, []);
    assert [color] == [color] + [];
  }

  /** The labels of the test hierarchy's shape, in post-order. */
  lemma TestShapeLabels(gl: Label, sh: Label, ci: Label, re: Label, sq: Label, co: Label, rd: Label, bl: Label)
    ensures Labels([Leaf(ci), Branch(re, [Leaf(sq)])]) == [ci, sq, re]
    ensures Labels(TestShape(gl, sh, ci, re, sq, co, rd, bl)[0].children) == [ci, sq, re, sh, rd, bl, co]
    ensures Labels(TestShape(gl, sh, ci, re, sq, co, rd, bl)) == [ci, sq, re, sh, rd, bl, co, gl]
  {
    var shape := Branch(sh, [Leaf(ci), Branch(re, [Leaf(sq)])]);
    var color := Branch(co, [Leaf(rd), Leaf(bl)]);
    TestShapeLabelsShape(sh, ci, re, sq);
    TestShapeLabelsColor(co, rd, bl);
    LabelsCons(shape, [color]);
    assert [shape, color] == [shape] + [color];
    assert Labels([shape, color]) == [ci, sq, re, sh] + [rd, bl, co];
    LabelsCons(Branch(gl, [shape, color]), []);
    assert TestShape(gl, sh, ci, re, sq, co, rd, bl) == [Branch(gl, [shape, color])] + [];
  }

  /** The tree path from `SquareError` up to the root, when it differs from the labels it passes. */
  lemma TestShapePath(gl: Label, sh: Label, ci: Label, re: Label, sq: Label, co: Label, rd: Label, bl: Label)
    requires sh != sq && ci != sq && re != sq
    ensures var root := TestShape(gl, sh, ci, re, sq, co, rd, bl)[0];
      sq in Labels(Children(root)) && PathFrom(root, sq) == [sq, re, sh, gl]
  {
    var rect := Branch(re, [Leaf(sq)]);
    TestShapeLabels(gl, sh, ci, re, sq, co, rd, bl);
    TestShapeLabelsShape(sh, ci, re, sq);
    LabelsCons(rect, []);
    assert [rect] == [rect] + [];
    assert PathIn([Leaf(sq)], sq) == [sq];
    assert PathIn([rect], sq) == [sq, re];
    assert PathIn([Leaf(ci), rect], sq) == [sq, re];
    assert PathIn(TestShape(gl, sh, ci, re, sq, co, rd, bl)[0].children, sq) == [sq, re, sh];
  }

  /** With distinct labels, the tree path from `SquareError` up to the root passes `RectangleError` and `ShapeError`. */
  lemma TestShapeTreePath(gl: Label, sh: Label, ci: Label, re: Label, sq: Label, co: Label, rd: Label, bl: Label)
    requires Distinct([ci, sq, re, sh, rd, bl, co, gl])
    ensures var forest := TestShape(gl, sh, ci, re, sq, co, rd, bl);
      Distinct(Labels(forest)) && Below(forest, gl, sq) && TreePath(forest, gl, sq) == [sq, re, sh, gl]
  {
    var forest := TestShape(gl, sh, ci, re, sq, co, rd, bl);
    var labels := [ci, sq, re, sh, rd, bl, co, gl];
    assert labels[0] == ci && labels[1] == sq && labels[2] == re && labels[3] == sh;
    TestShapeLabels(gl, sh, ci, re, sq, co, rd, bl);
    TestShapePath(gl, sh, ci, re, sq, co, rd, bl);
    assert forest[0] in forest;
    RootsAreNodes(forest, forest[0]);
    TreePathAt(forest, forest[0], sq);
  }

  /**
    In a forest of the test hierarchy's shape with distinct labels, the
    third impl written is `From<SquareError>` for the root, and it converts
    through `RectangleError` and `ShapeError`, one written edge at a time.
  */
  lemma TestShapeConversion<V(!new)>(edge: (Label, Label, V) -> V, v: V, gen: seq<Token>,
                               gl: Label, sh: Label, ci: Label, re: Label, sq: Label, co: Label, rd: Label, bl: Label)
    requires Distinct([ci, sq, re, sh, rd, bl, co, gl])
    ensures var out := Hierarchy(gen, TestShape(gl, sh, ci, re, sq, co, rd, bl));
      |out| == 6 && out[2] == Impl(gen, gl, sh, sq)
    ensures Realized(gen, TestShape(gl, sh, ci, re, sq, co, rd, bl), edge, 2, v) ==
      edge(gl, sh, edge(sh, re, edge(re, sq, v)))
  {
    var forest := TestShape(gl, sh, ci, re, sq, co, rd, bl);
    TestShapeExpansion(gen, gl, sh, ci, re, sq, co, rd, bl);
    var out := Hierarchy(gen, forest);
    assert |out| == 6 && out[2] == Impl(gen, gl, sh, sq);
    TestShapeTreePath(gl, sh, ci, re, sq, co, rd, bl);
    ThreeEdgeConversion(gen, forest, edge, 2, v, sq, re, sh, gl);
  }

  /** The error hierarchy of the test module, written with generics list `['a]`. */
  const TestForest: seq<Node> :=
    TestShape("GlobalError<'a>", "ShapeError", "CircleError", "RectangleError", "SquareError",
              "ColorError<'a>", "RedError<'a>", "BlueError<'a>")

  /** The test hierarchy expands to six impls, each carrying the generics list `['a]`. */
  lemma TestExpansion()
    ensures Hierarchy(["'a"], TestForest) == [
      Impl(["'a"], "ShapeError", "RectangleError", "SquareError"),
      Impl(["'a"], "GlobalError<'a>", "ShapeError", "CircleError"),
      Impl(["'a"], "GlobalError<'a>", "ShapeError", "SquareError"),
      Impl(["'a"], "GlobalError<'a>", "ShapeError", "RectangleError"),
      Impl(["'a"], "GlobalError<'a>", "ColorError<'a>", "RedError<'a>"),
      Impl(["'a"], "GlobalError<'a>", "ColorError<'a>", "BlueError<'a>")]
  {
    TestShapeExpansion(["'a"], "GlobalError<'a>", "ShapeError", "CircleError", "RectangleError", "SquareError",
      "ColorError<'a>", "RedError<'a>", "BlueError<'a>");
  }

  /** No type is named twice in the test hierarchy. */
  lemma TestDistinct()
    ensures Distinct(["CircleError", "SquareError", "RectangleError", "ShapeError",
                      "RedError<'a>", "BlueError<'a>", "ColorError<'a>", "GlobalError<'a>"])
  {
  }

  /**
    `foo()?` inside `bar` (src/lib.rs:277) needs `From<SquareError> for
    GlobalError<'a>`: the expansion writes it, and it converts through
    `RectangleError` and `ShapeError`.
  */
  lemma TestSquareToGlobal<V(!new)>(edge: (Label, Label, V) -> V, v: V)
    ensures |Hierarchy(["'a"], TestForest)| == 6
    ensures Hierarchy(["'a"], TestForest)[2] == Impl(["'a"], "GlobalError<'a>", "ShapeError", "SquareError")
    ensures Realized(["'a"], TestForest, edge, 2, v) ==
      edge("GlobalError<'a>", "ShapeError", edge("ShapeError", "RectangleError", edge("RectangleError", "SquareError", v)))
  {
    TestDistinct();
    TestShapeConversion(edge, v, ["'a"], "GlobalError<'a>", "ShapeError", "CircleError", "RectangleError", "SquareError",
      "ColorError<'a>", "RedError<'a>", "BlueError<'a>");
  }
}
