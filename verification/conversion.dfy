/**
  What the body of each generated impl computes. The `From` impls written by
  the user along the tree edges are an abstract function `edge(parent,
  child, v)`: the value `<parent>::from(v)` for a `v` of type `child`. The
  body `<root>::from(<child>::from(g))` (src/lib.rs:176) applies the edge from
  `child` to `root` to whatever `From<grandchild> for child` produces: the
  written edge when `grandchild` is a child of `child`, otherwise the impl
  the expansion wrote for that pair.
*/
module Conversion {
  import opened Forest
  import opened Expansion
  import opened ExpansionProperties

  /**
    Converting `v` along `path` (lowest type first) one written edge at a
    time: the edge from `path[0]` to `path[1]` first, then on up.
  */
  function Chain<V>(edge: (Label, Label, V) -> V, path: seq<Label>, v: V): V
    requires |path| >= 1
    decreases |path|
  {
    if |path| == 1 then v
    else Chain(edge, path[1..], edge(path[1], path[0], v))
  }

  /**
    The labels from `g` up to the root of the tree of `cs` that holds `g`,
    in that order.
  */
  function PathIn(cs: seq<Node>, g: Label): (r: seq<Label>)
    requires g in Labels(cs)
    ensures |r| >= 1 && r[0] == g
    decreases cs
  {
    Unfold(cs);
    match cs[0]
    case Leaf(x) => if x == g then [g] else PathIn(cs[1..], g)
    case Branch(x, kids) =>
      if x == g then [g]
      else if g in Labels(kids) then PathIn(kids, g) + [x]
      else PathIn(cs[1..], g)
  }

  /** The labels from `g` up to `n`, for a proper descendant `g` of `n`. */
  function PathFrom(n: Node, g: Label): (r: seq<Label>)
    requires g in Labels(Children(n))
    ensures |r| >= 2 && r[0] == g && r[|r| - 1] == n.name
  {
    PathIn(Children(n), g) + [n.name]
  }

  /** The tree path from `g` up to the node labelled `p`. */
  ghost function TreePath(f: seq<Node>, p: Label, g: Label): (r: seq<Label>)
    requires Below(f, p, g)
    ensures exists n :: n in Nodes(f) && n.name == p && g in Labels(Children(n)) && r == PathFrom(n, g)
  {
    var n :| n in Nodes(f) && n.name == p && g in Labels(Children(n));
    PathFrom(n, g)
  }

  /**
    The value the `i`-th impl of the expansion produces from `v`: the edge
    from its child to its root, applied to the conversion from its
    grandchild to its child, which is a written edge or an earlier impl.
  */
  ghost function Realized<V(!new)>(generics: seq<Token>, f: seq<Node>, edge: (Label, Label, V) -> V, i: nat, v: V): (r: V)
    requires i < |Hierarchy(generics, f)|
    ensures exists inner :: r == edge(Hierarchy(generics, f)[i].root, Hierarchy(generics, f)[i].child, inner)
    decreases i
  {
    var out := Hierarchy(generics, f);
    Ordering(generics, f);
    var a := out[i];
    var inner :=
      if IsEdge(f, a.child, a.grandchild) then edge(a.child, a.grandchild, v)
      else
        var j :| 0 <= j < i && out[j].root == a.child && out[j].grandchild == a.grandchild;
        Realized(generics, f, edge, j, v);
    var outer := edge(a.root, a.child, inner);
    assert outer == edge(out[i].root, out[i].child, inner);
    outer
  }

  /** A path within a subforest climbs edges of every forest containing it. */
  lemma EdgeWider(f: seq<Node>, sub: seq<Node>, p: Label, c: Label)
    requires IsEdge(sub, p, c)
    requires forall x :: x in Nodes(sub) ==> x in Nodes(f)
    ensures IsEdge(f, p, c)
  {
    var n, m :| n in Nodes(sub) && m in Children(n) && n.name == p && m.name == c;
    assert n in Nodes(f);
  }

  /** Every step of `r` climbs a written edge of `f`. */
  ghost predicate Climbs(f: seq<Node>, r: seq<Label>)
  {
    forall k :: 0 <= k < |r| - 1 ==> IsEdge(f, r[k + 1], r[k])
  }

  /** Steps climbing edges of a subforest climb edges of every forest containing it. */
  lemma ClimbsWider(f: seq<Node>, sub: seq<Node>, r: seq<Label>)
    requires Climbs(sub, r)
    requires forall x :: x in Nodes(sub) ==> x in Nodes(f)
    ensures Climbs(f, r)
  {
    forall k | 0 <= k < |r| - 1 ensures IsEdge(f, r[k + 1], r[k]) {
      EdgeWider(f, sub, r[k + 1], r[k]);
    }
  }

  /** A path climbing to a child of `n` extends by one edge to `n`. */
  lemma ClimbsUp(f: seq<Node>, n: Node, s: seq<Label>)
    requires n in Nodes(f) && |s| >= 1
    requires Climbs(Children(n), s)
    requires exists m :: m in Children(n) && m.name == s[|s| - 1]
    ensures Climbs(f, s + [n.name])
  {
    NodesInward(f, n);
    ClimbsWider(f, Children(n), s);
    var top :| top in Children(n) && top.name == s[|s| - 1];
    ChildEdge(f, n, top);
    ClimbsSnoc(f, s, n.name);
  }

  /** A node and one of its children form an edge of any forest holding the node. */
  lemma ChildEdge(f: seq<Node>, n: Node, m: Node)
    requires n in Nodes(f) && m in Children(n)
    ensures IsEdge(f, n.name, m.name)
  {
  }

  /** A climbing path extended by the parent of its last label still climbs. */
  lemma ClimbsSnoc(f: seq<Node>, s: seq<Label>, p: Label)
    requires |s| >= 1 && Climbs(f, s) && IsEdge(f, p, s[|s| - 1])
    ensures Climbs(f, s + [p])
  {
    var r := s + [p];
    forall k | 0 <= k < |r| - 1 ensures IsEdge(f, r[k + 1], r[k]) {
      if k < |s| - 1 {
        assert r[k + 1] == s[k + 1] && r[k] == s[k];
      } else {
        assert r[k + 1] == p && r[k] == s[|s| - 1];
      }
    }
  }

  /** `PathIn` climbs written edges and ends at a root of the forest. */
  lemma {:induction false} PathInClimbs(cs: seq<Node>, g: Label)
    requires g in Labels(cs)
    ensures var r := PathIn(cs, g);
      (exists m :: m in cs && m.name == r[|r| - 1]) && Climbs(cs, r)
    decreases cs
  {
    Unfold(cs);
    var h, t := cs[0], cs[1..];
    var r := PathIn(cs, g);
    assert h in cs;
    if h.name == g {
    } else if h.Branch? && g in Labels(h.children) {
      PathInClimbs(h.children, g);
      RootsAreNodes(cs, h);
      assert r == PathIn(h.children, g) + [h.name];
      ClimbsUp(cs, h, PathIn(h.children, g));
    } else {
      assert r == PathIn(t, g);
      PathInClimbs(t, g);
      ClimbsRest(cs, r);
    }
  }

  /** A path climbing the trees after the first one also climbs the whole forest. */
  lemma ClimbsRest(cs: seq<Node>, r: seq<Label>)
    requires cs != [] && |r| >= 1
    requires (exists m :: m in cs[1..] && m.name == r[|r| - 1]) && Climbs(cs[1..], r)
    ensures (exists m :: m in cs && m.name == r[|r| - 1]) && Climbs(cs, r)
  {
    var t := cs[1..];
    Unfold(cs);
    var top :| top in t && top.name == r[|r| - 1];
    assert top in cs;
    forall x | x in Nodes(t) ensures x in Nodes(cs) {
    }
    ClimbsWider(cs, t, r);
  }

  /** `PathFrom` climbs written edges of any forest holding its node. */
  lemma PathFromClimbs(f: seq<Node>, n: Node, g: Label)
    requires n in Nodes(f) && g in Labels(Children(n))
    ensures Climbs(f, PathFrom(n, g))
  {
    PathInClimbs(Children(n), g);
    ClimbsUp(f, n, PathIn(Children(n), g));
  }

  /**
    The tree path runs from `g` to `p` and every step climbs one written edge,
    so converting along it uses only the user's direct impls.
  */
  lemma TreePathClimbs(f: seq<Node>, p: Label, g: Label)
    requires Below(f, p, g)
    ensures var r := TreePath(f, p, g);
      |r| >= 2 && r[0] == g && r[|r| - 1] == p &&
      forall k :: 0 <= k < |r| - 1 ==> IsEdge(f, r[k + 1], r[k])
  {
    var n :| n in Nodes(f) && n.name == p && g in Labels(Children(n)) && TreePath(f, p, g) == PathFrom(n, g);
    PathFromClimbs(f, n, g);
  }

  /** With distinct labels, `PathIn` goes through the one tree of the forest that holds `g`. */
  lemma {:induction false} PathInPicks(cs: seq<Node>, m: Node, g: Label)
    requires Distinct(Labels(cs)) && m in cs
    requires m.name == g || g in Labels(Children(m))
    ensures g in Labels(cs)
    ensures PathIn(cs, g) == if m.name == g then [g] else PathIn(Children(m), g) + [m.name]
    decreases cs
  {
    InLabels(cs, g);
    Unfold(cs);
    DistinctParts(cs);
    var h, t := cs[0], cs[1..];
    if m != h {
      assert m in t;
      InLabels(t, g);
      RootsAreNodes(t, m);
      LabelsInward(t, m);
      PathInPicks(t, m, g);
    }
  }

  /** With distinct labels, the tree path from `g` to `n` is the one below `n`. */
  lemma TreePathAt(f: seq<Node>, n: Node, g: Label)
    requires Distinct(Labels(f)) && n in Nodes(f) && g in Labels(Children(n))
    ensures Below(f, n.name, g) && TreePath(f, n.name, g) == PathFrom(n, g)
  {
    var n' :| n' in Nodes(f) && n'.name == n.name && g in Labels(Children(n')) && TreePath(f, n.name, g) == PathFrom(n', g);
    UniqueNode(f, n, n');
  }

  /** Chaining along a path extended by one label applies one more edge. */
  lemma {:induction false} ChainSnoc<V>(edge: (Label, Label, V) -> V, path: seq<Label>, p: Label, v: V)
    requires |path| >= 1
    ensures Chain(edge, path + [p], v) == edge(p, path[|path| - 1], Chain(edge, path, v))
    decreases |path|
  {
    var q := path + [p];
    assert q[0] == path[0] && q[1] == (if |path| == 1 then p else path[1]);
    if |path| > 1 {
      assert q[1..] == path[1..] + [p];
      ChainSnoc(edge, path[1..], p, edge(path[1], path[0], v));
    }
  }

  /** Chaining along a single edge applies that edge. */
  lemma ChainOneEdge<V>(edge: (Label, Label, V) -> V, g: Label, c: Label, v: V)
    ensures Chain(edge, [g, c], v) == edge(c, g, v)
  {
    assert [g, c][1..] == [c];
  }

  /**
    With distinct labels, the tree path from `g` up to `n` is the tree path
    from `g` up to the child `m` of `n` that holds it, followed by `n`; it is
    `[g, m]` when `g` is a child of `m`.
  */
  lemma RoutedPath(f: seq<Node>, n: Node, m: Node, g: Label)
    requires Distinct(Labels(f)) && n in Nodes(f) && m in Children(n) && g in Labels(Children(m))
    ensures Below(f, n.name, g) && Below(f, m.name, g)
    ensures TreePath(f, n.name, g) == TreePath(f, m.name, g) + [n.name]
    ensures |TreePath(f, m.name, g)| >= 2 && TreePath(f, m.name, g)[|TreePath(f, m.name, g)| - 1] == m.name
  {
    NodesInward(f, n);
    RootsAreNodes(Children(n), m);
    assert m in Nodes(f);
    DistinctSubtree(f, n);
    DistinctSubtree(f, m);
    assert m.name != g;
    PathInPicks(Children(n), m, g);
    assert PathIn(Children(n), g) == PathFrom(m, g);
    TreePathAt(f, n, g);
    TreePathAt(f, m, g);
  }

  /** With distinct labels, the tree path from a child `g` of `c` is the single edge `[g, c]`. */
  lemma EdgePath(f: seq<Node>, c: Label, g: Label)
    requires Distinct(Labels(f)) && IsEdge(f, c, g)
    ensures Below(f, c, g) && TreePath(f, c, g) == [g, c]
  {
    var n, m :| n in Nodes(f) && m in Children(n) && n.name == c && m.name == g;
    DistinctSubtree(f, n);
    PathInPicks(Children(n), m, g);
    TreePathAt(f, n, g);
    Pair(g, c);
  }

  lemma Pair(g: Label, c: Label)
    ensures [g] + [c] == [g, c]
  {
  }

  /** One unfolding of `Realized`: the inner conversion is the written edge or an earlier impl. */
  lemma RealizedStep<V(!new)>(generics: seq<Token>, f: seq<Node>, edge: (Label, Label, V) -> V, i: nat, v: V)
      returns (j: nat)
    requires i < |Hierarchy(generics, f)|
    ensures var out := Hierarchy(generics, f); var a := out[i];
      if IsEdge(f, a.child, a.grandchild) then
        Realized(generics, f, edge, i, v) == edge(a.root, a.child, edge(a.child, a.grandchild, v))
      else
        j < i && out[j].root == a.child && out[j].grandchild == a.grandchild &&
        Realized(generics, f, edge, i, v) == edge(a.root, a.child, Realized(generics, f, edge, j, v))
  {
    j := 0;
    var out := Hierarchy(generics, f);
    var a := out[i];
    Ordering(generics, f);
    if !IsEdge(f, a.child, a.grandchild) {
      j :| 0 <= j < i && out[j].root == a.child && out[j].grandchild == a.grandchild &&
        Realized(generics, f, edge, i, v) == edge(a.root, a.child, Realized(generics, f, edge, j, v));
    }
  }

  /** With distinct labels, the tree path of an impl's pair climbs through its child, which lies at least one edge above the grandchild. */
  lemma ImplPath(generics: seq<Token>, f: seq<Node>, i: nat)
    requires Distinct(Labels(f)) && i < |Hierarchy(generics, f)|
    ensures var a := Hierarchy(generics, f)[i];
      Below(f, a.root, a.grandchild) && Below(f, a.child, a.grandchild) &&
      |TreePath(f, a.child, a.grandchild)| >= 2 &&
      TreePath(f, a.child, a.grandchild)[|TreePath(f, a.child, a.grandchild)| - 1] == a.child &&
      TreePath(f, a.root, a.grandchild) == TreePath(f, a.child, a.grandchild) + [a.root]
  {
    var a := Hierarchy(generics, f)[i];
    assert a in Hierarchy(generics, f);
    MembershipSound(generics, f, a);
    var n, m :| n in Nodes(f) && m in Children(n) && n.name == a.root && m.name == a.child && a.grandchild in Labels(Children(m));
    RoutedPath(f, n, m, a.grandchild);
  }

  /**
    Composition correctness: with distinct labels, the `i`-th impl converts a
    value of its grandchild type by chaining the written edges along the tree
    path up to its root, a path of two or more edges.
  */
  lemma {:induction false} Composition<V(!new)>(generics: seq<Token>, f: seq<Node>, edge: (Label, Label, V) -> V, i: nat, v: V)
    requires Distinct(Labels(f)) && i < |Hierarchy(generics, f)|
    ensures var a := Hierarchy(generics, f)[i];
      Below(f, a.root, a.grandchild) &&
      |TreePath(f, a.root, a.grandchild)| >= 3 &&
      Realized(generics, f, edge, i, v) == Chain(edge, TreePath(f, a.root, a.grandchild), v)
    decreases i
  {
    var out := Hierarchy(generics, f);
    var a := out[i];
    var p, c, g := a.root, a.child, a.grandchild;
    ImplPath(generics, f, i);
    var lower := TreePath(f, c, g);
    ChainSnoc(edge, lower, p, v);
    var j := RealizedStep(generics, f, edge, i, v);
    if IsEdge(f, c, g) {
      EdgePath(f, c, g);
      ChainOneEdge(edge, g, c, v);
    } else {
      Composition(generics, f, edge, j, v);
      assert Realized(generics, f, edge, j, v) == Chain(edge, lower, v);
    }
    assert Realized(generics, f, edge, i, v) == edge(p, c, Chain(edge, lower, v));
  }
}
