/**
  The already-parsed input of the `hierarchy!` macro: a forest of type
  labels. A type written without a `{ }` block is a `Leaf`; a type written
  with a block (possibly empty) is a `Branch` whose children are the items
  of that block, in declaration order.

  Labels are opaque: the macro only quotes them into generated code, so the
  model only compares them for equality.
*/
module Forest {

  /** An opaque type expression such as `A` or `GlobalError<'a>`. */
  type Label = string

  datatype Node = Leaf(name: Label) | Branch(name: Label, children: seq<Node>)

  /** The immediate children of a node; a node without a block has none. */
  function Children(n: Node): (r: seq<Node>)
    ensures n.Leaf? ==> r == []
    ensures n.Branch? ==> r == n.children
  {
    match n
    case Leaf(_) => []
    case Branch(_, cs) => cs
  }

  /** Every node of the forest, each subtree's nodes before its root. */
  function Nodes(f: seq<Node>): seq<Node>
    decreases f
  {
    if f == [] then []
    else (match f[0] case Leaf(_) => [] case Branch(_, cs) => Nodes(cs)) + [f[0]] + Nodes(f[1..])
  }

  /** Every label of the forest, in the same post-order as `Nodes`. */
  function Labels(f: seq<Node>): (r: seq<Label>)
    ensures |r| == |Nodes(f)|
    decreases f
  {
    if f == [] then []
    else (match f[0] case Leaf(_) => [] case Branch(_, cs) => Labels(cs)) + [f[0].name] + Labels(f[1..])
  }

  /**
    No label occurs twice. Under it, no two generated impls, and no generated
    impl and written edge, share a (root, grandchild) pair.
  */
  predicate Distinct(s: seq<Label>)
  {
    forall i, j :: 0 <= i < j < |s| ==> s[i] != s[j]
  }

  /** `p` is written with `c` as an item of its block: a distance-1 pair. */
  ghost predicate IsEdge(f: seq<Node>, p: Label, c: Label)
  {
    exists n, m :: n in Nodes(f) && m in Children(n) && n.name == p && m.name == c
  }

  /** `g` is a proper descendant of some node labelled `p`: distance at least 1. */
  ghost predicate Below(f: seq<Node>, p: Label, g: Label)
  {
    exists n :: n in Nodes(f) && n.name == p && g in Labels(Children(n))
  }

  /** `c` is a child of `p` and `g` a proper descendant of `c`: the route of a generated impl. */
  ghost predicate Routed(f: seq<Node>, p: Label, c: Label, g: Label)
  {
    exists n, m :: n in Nodes(f) && m in Children(n) && n.name == p && m.name == c && g in Labels(Children(m))
  }

  /** `Nodes` and `Labels` of a non-empty forest, in terms of `Children`. */
  lemma Unfold(f: seq<Node>)
    requires f != []
    ensures Nodes(f) == Nodes(Children(f[0])) + [f[0]] + Nodes(f[1..])
    ensures Labels(f) == Labels(Children(f[0])) + [f[0].name] + Labels(f[1..])
  {
  }

  /** `Labels` lists the names of `Nodes`, position by position. */
  lemma {:induction false} LabelsAt(f: seq<Node>)
    ensures forall k :: 0 <= k < |Labels(f)| ==> Labels(f)[k] == Nodes(f)[k].name
    decreases f
  {
    if f != [] {
      Unfold(f);
      if f[0].Branch? {
        LabelsAt(f[0].children);
      }
      LabelsAt(f[1..]);
    }
  }

  lemma {:induction false} LabelsOfNodes(f: seq<Node>, x: Label)
    ensures x in Labels(f) <==> exists n :: n in Nodes(f) && n.name == x
  {
    LabelsAt(f);
    if x in Labels(f) {
      var k :| 0 <= k < |Labels(f)| && Labels(f)[k] == x;
      assert Nodes(f)[k] in Nodes(f);
    }
  }

  /** A label occurs in a forest exactly when it names one of its trees or lies below one. */
  lemma {:induction false} InLabels(f: seq<Node>, x: Label)
    ensures x in Labels(f) <==> exists m :: m in f && (m.name == x || x in Labels(Children(m)))
    decreases f
  {
    if f != [] {
      InLabels(f[1..], x);
      Unfold(f);
      if x in Labels(f) {
        if x !in Labels(f[1..]) {
          assert f[0] in f;
        } else {
          var m :| m in f[1..] && (m.name == x || x in Labels(Children(m)));
          assert m in f;
        }
      }
      if exists m :: m in f && (m.name == x || x in Labels(Children(m))) {
        var m :| m in f && (m.name == x || x in Labels(Children(m)));
        if m != f[0] {
          assert m in f[1..];
        }
      }
    }
  }

  /** A node's own nodes are all nodes of any forest it belongs to. */
  lemma {:induction false} NodesInward(f: seq<Node>, n: Node)
    requires n in Nodes(f)
    ensures forall x :: x in Nodes(Children(n)) ==> x in Nodes(f)
    decreases f
  {
    Unfold(f);
    if n in Nodes(Children(f[0])) {
      NodesInward(Children(f[0]), n);
    } else if n in Nodes(f[1..]) {
      NodesInward(f[1..], n);
    }
  }

  /** The roots of a forest are nodes of it. */
  lemma {:induction false} RootsAreNodes(f: seq<Node>, m: Node)
    requires m in f
    ensures m in Nodes(f)
    decreases f
  {
    if m != f[0] {
      RootsAreNodes(f[1..], m);
    }
  }

  lemma {:induction false} LabelsInward(f: seq<Node>, n: Node)
    requires n in Nodes(f)
    ensures n.name in Labels(f)
    ensures forall x :: x in Labels(Children(n)) ==> x in Labels(f)
  {
    LabelsOfNodes(f, n.name);
    forall x | x in Labels(Children(n)) ensures x in Labels(f) {
      LabelsOfNodes(Children(n), x);
      var y :| y in Nodes(Children(n)) && y.name == x;
      NodesInward(f, n);
      LabelsOfNodes(f, x);
    }
  }

  /** Distinctness of a concatenation splits into both parts and their disjointness. */
  lemma DistinctConcat(a: seq<Label>, b: seq<Label>)
    requires Distinct(a + b)
    ensures Distinct(a) && Distinct(b)
    ensures forall x :: x in a ==> x !in b
  {
    forall i, j | 0 <= i < j < |a| ensures a[i] != a[j] {
      assert (a + b)[i] == a[i] && (a + b)[j] == a[j];
    }
    forall i, j | 0 <= i < j < |b| ensures b[i] != b[j] {
      assert (a + b)[|a| + i] == b[i] && (a + b)[|a| + j] == b[j];
    }
    forall i, j | 0 <= i < |a| && 0 <= j < |b| ensures a[i] != b[j] {
      assert (a + b)[i] == a[i] && (a + b)[|a| + j] == b[j];
    }
  }

  /** Distinctness of `l0 + [x] + l1`, split into its three parts. */
  lemma DistinctSplit(l0: seq<Label>, x: Label, l1: seq<Label>)
    requires Distinct(l0 + [x] + l1)
    ensures Distinct(l0) && Distinct(l1) && x !in l0 && x !in l1
    ensures forall y :: y in l0 ==> y !in l1
  {
    var mid := [x] + l1;
    assert l0 + [x] + l1 == l0 + mid;
    DistinctConcat(l0, mid);
    DistinctConcat([x], l1);
    assert x in mid;
  }

  /** What distinct labels of a non-empty forest say about its first tree and the rest. */
  lemma DistinctParts(f: seq<Node>)
    requires f != [] && Distinct(Labels(f))
    ensures Distinct(Labels(Children(f[0]))) && Distinct(Labels(f[1..]))
    ensures f[0].name !in Labels(Children(f[0])) && f[0].name !in Labels(f[1..])
    ensures forall x :: x in Labels(Children(f[0])) ==> x !in Labels(f[1..])
  {
    Unfold(f);
    DistinctSplit(Labels(Children(f[0])), f[0].name, Labels(f[1..]));
  }

  /** With distinct labels, a label names at most one node. */
  lemma {:induction false} UniqueNode(f: seq<Node>, n1: Node, n2: Node)
    requires Distinct(Labels(f))
    requires n1 in Nodes(f) && n2 in Nodes(f) && n1.name == n2.name
    ensures n1 == n2
    decreases f
  {
    var h, cs, t := f[0], Children(f[0]), f[1..];
    Unfold(f);
    DistinctParts(f);
    if n1 in Nodes(cs) && n2 in Nodes(cs) {
      UniqueNode(cs, n1, n2);
    } else if n1 in Nodes(t) && n2 in Nodes(t) {
      UniqueNode(t, n1, n2);
    } else if n1 != n2 {
      LabelsOfNodes(cs, n1.name);
      LabelsOfNodes(t, n1.name);
      assert false;
    }
  }

  /** With distinct labels, every subtree has distinct labels and does not contain its own root's label. */
  lemma {:induction false} DistinctSubtree(f: seq<Node>, n: Node)
    requires Distinct(Labels(f)) && n in Nodes(f)
    ensures Distinct(Labels(Children(n)))
    ensures n.name !in Labels(Children(n))
    decreases f
  {
    DistinctParts(f);
    Unfold(f);
    if n in Nodes(Children(f[0])) {
      DistinctSubtree(Children(f[0]), n);
    } else if n in Nodes(f[1..]) {
      DistinctSubtree(f[1..], n);
    }
  }

  /** With distinct labels, no tree of a forest holds the label of a tree of the same forest below its root. */
  lemma {:induction false} SiblingsApart(f: seq<Node>, m: Node, m': Node)
    requires Distinct(Labels(f)) && m in f && m' in f
    ensures m.name !in Labels(Children(m'))
    decreases f
  {
    var h, t := f[0], f[1..];
    DistinctParts(f);
    if m == h && m' == h {
    } else if m == h {
      assert m' in t;
      RootsAreNodes(t, m');
      LabelsInward(t, m');
    } else if m' == h {
      assert m in t;
      RootsAreNodes(t, m);
      LabelsInward(t, m);
    } else {
      SiblingsApart(t, m, m');
    }
  }

  /** A forest has labels exactly when it has trees. */
  lemma LabelsEmpty(f: seq<Node>)
    ensures Labels(f) == [] <==> f == []
  {
  }
}
