/**
  What the expansion of `hierarchy!` contains, stated against the forest:
  which impls it writes (one per ancestor and descendant two or more edges
  apart, routed through the ancestor's child), that it writes none for a
  written edge, none twice, all with the same generics list, and each after
  the impl its body relies on.
*/
module ExpansionProperties {
  import opened Forest
  import opened Expansion

  /** No (root, grandchild) pair is implemented twice: Rust would reject conflicting impls. */
  predicate OncePerPair(out: seq<Impl>)
  {
    forall i, j :: 0 <= i < j < |out| ==> out[i].root != out[j].root || out[i].grandchild != out[j].grandchild
  }

  /**
    Every impl's body `<root>::from(<child>::from(g))` finds `From<grandchild>
    for child` either among the edges written in the forest or among the impls
    written before it.
  */
  ghost predicate Available(f: seq<Node>, out: seq<Impl>)
  {
    forall i :: 0 <= i < |out| ==>
      IsEdge(f, out[i].child, out[i].grandchild) ||
      exists j :: 0 <= j < i && out[j].root == out[i].child && out[j].grandchild == out[i].grandchild
  }

  /** The impls one call of `__hierarchy_internals!` writes: one per label of the block, and nothing else. */
  lemma InternalsMembers(generics: seq<Token>, root: Label, child: Label, grandchildren: seq<Node>, a: Impl)
    ensures a in Internals(generics, root, child, grandchildren) <==>
      a.generics == generics && a.root == root && a.child == child && a.grandchild in Labels(grandchildren)
  {
    var out := Internals(generics, root, child, grandchildren);
    if a.generics == generics && a.root == root && a.child == child && a.grandchild in Labels(grandchildren) {
      var k :| 0 <= k < |Labels(grandchildren)| && Labels(grandchildren)[k] == a.grandchild;
      assert out[k] == a;
    }
  }

  /** The impls one child-list repetition writes: one per child with a block and per descendant of that child. */
  lemma {:induction false} ChildInternalsMembers(generics: seq<Token>, root: Label, children: seq<Node>, a: Impl)
    ensures a in ChildInternals(generics, root, children) <==>
      a.generics == generics && a.root == root &&
      exists m :: m in children && m.name == a.child && a.grandchild in Labels(Children(m))
    decreases children
  {
    if children != [] {
      var h, t := children[0], children[1..];
      ChildInternalsMembers(generics, root, t, a);
      var first := if h.Leaf? then [] else Internals(generics, root, h.name, h.children);
      assert ChildInternals(generics, root, children) == first + ChildInternals(generics, root, t);
      InternalsMembers(generics, root, h.name, Children(h), a);
      assert h in children;
      if a.generics == generics && a.root == root &&
         exists m :: m in children && m.name == a.child && a.grandchild in Labels(Children(m)) {
        var m :| m in children && m.name == a.child && a.grandchild in Labels(Children(m));
        if m != h {
          assert m in t;
        }
      }
    }
  }

  /**
    Soundness and completeness: an impl is written exactly when it carries the
    given generics, its child is a child of its root and its grandchild lies
    below that child.
  */
  lemma {:induction false} Membership(generics: seq<Token>, f: seq<Node>, a: Impl)
    ensures a in Hierarchy(generics, f) <==> a.generics == generics && Routed(f, a.root, a.child, a.grandchild)
  {
    if a in Hierarchy(generics, f) {
      MembershipSound(generics, f, a);
    }
    if a.generics == generics && Routed(f, a.root, a.child, a.grandchild) {
      MembershipComplete(generics, f, a);
    }
  }

  /** Every generated impl follows a route of the forest and carries the macro's generics. */
  lemma {:induction false} MembershipSound(generics: seq<Token>, f: seq<Node>, a: Impl)
    requires a in Hierarchy(generics, f)
    ensures a.generics == generics && Routed(f, a.root, a.child, a.grandchild)
    decreases f
  {
    var h, cs, t := f[0], Children(f[0]), f[1..];
    Unfold(f);
    var part := if h.Leaf? then [] else Hierarchy(generics, cs) + ChildInternals(generics, h.name, cs);
    assert Hierarchy(generics, f) == part + Hierarchy(generics, t);
    if a in Hierarchy(generics, t) {
      MembershipSound(generics, t, a);
      var n, m :| n in Nodes(t) && m in Children(n) && n.name == a.root && m.name == a.child && a.grandchild in Labels(Children(m));
      assert n in Nodes(f);
    } else if a in Hierarchy(generics, cs) {
      MembershipSound(generics, cs, a);
      var n, m :| n in Nodes(cs) && m in Children(n) && n.name == a.root && m.name == a.child && a.grandchild in Labels(Children(m));
      assert n in Nodes(f);
    } else {
      ChildInternalsMembers(generics, h.name, cs, a);
      var m :| m in cs && m.name == a.child && a.grandchild in Labels(Children(m));
      assert h in Nodes(f);
    }
  }

  /** Every route of the forest is generated, with the macro's generics. */
  lemma {:induction false} MembershipComplete(generics: seq<Token>, f: seq<Node>, a: Impl)
    requires a.generics == generics && Routed(f, a.root, a.child, a.grandchild)
    ensures a in Hierarchy(generics, f)
    decreases f
  {
    var h, cs, t := f[0], Children(f[0]), f[1..];
    Unfold(f);
    var part := if h.Leaf? then [] else Hierarchy(generics, cs) + ChildInternals(generics, h.name, cs);
    assert Hierarchy(generics, f) == part + Hierarchy(generics, t);
    var n, m :| n in Nodes(f) && m in Children(n) && n.name == a.root && m.name == a.child && a.grandchild in Labels(Children(m));
    if n in Nodes(cs) {
      assert Routed(cs, a.root, a.child, a.grandchild);
      MembershipComplete(generics, cs, a);
    } else if n in Nodes(t) {
      assert Routed(t, a.root, a.child, a.grandchild);
      MembershipComplete(generics, t, a);
    } else {
      assert n == h;
      ChildInternalsMembers(generics, h.name, cs, a);
    }
  }

  /** Completeness: every pair at distance two or more gets an impl, whatever the labels. */
  lemma Completeness(generics: seq<Token>, f: seq<Node>, p: Label, g: Label)
    requires Below(f, p, g) && !IsEdge(f, p, g)
    ensures exists c :: Impl(generics, p, c, g) in Hierarchy(generics, f)
  {
    var n :| n in Nodes(f) && n.name == p && g in Labels(Children(n));
    InLabels(Children(n), g);
    var m :| m in Children(n) && (m.name == g || g in Labels(Children(m)));
    assert g in Labels(Children(m));
    Membership(generics, f, Impl(generics, p, m.name, g));
  }

  /**
    Exclusion: with distinct labels no impl is written for a written edge,
    and every written impl joins an ancestor to a proper descendant.
  */
  lemma Exclusion(generics: seq<Token>, f: seq<Node>, a: Impl)
    requires Distinct(Labels(f)) && a in Hierarchy(generics, f)
    ensures Below(f, a.root, a.grandchild) && !IsEdge(f, a.root, a.grandchild)
  {
    Membership(generics, f, a);
    var n, m :| n in Nodes(f) && m in Children(n) && n.name == a.root && m.name == a.child && a.grandchild in Labels(Children(m));
    InLabels(Children(n), a.grandchild);
    if IsEdge(f, a.root, a.grandchild) {
      var n', m' :| n' in Nodes(f) && m' in Children(n') && n'.name == a.root && m'.name == a.grandchild;
      UniqueNode(f, n, n');
      DistinctSubtree(f, n);
      SiblingsApart(Children(n), m', m);
      assert false;
    }
  }

  /** With distinct labels, an impl from `g` to `p` is written exactly when `g` is two or more edges below `p`. */
  lemma GeneratedIffDistanceTwo(generics: seq<Token>, f: seq<Node>, p: Label, g: Label)
    requires Distinct(Labels(f))
    ensures (exists c :: Impl(generics, p, c, g) in Hierarchy(generics, f)) <==> Below(f, p, g) && !IsEdge(f, p, g)
  {
    if exists c :: Impl(generics, p, c, g) in Hierarchy(generics, f) {
      var c :| Impl(generics, p, c, g) in Hierarchy(generics, f);
      Exclusion(generics, f, Impl(generics, p, c, g));
    }
    if Below(f, p, g) && !IsEdge(f, p, g) {
      Completeness(generics, f, p, g);
    }
  }

  /** Roots and grandchildren of written impls are labels of the forest. */
  lemma LabelsOfImpl(generics: seq<Token>, f: seq<Node>, a: Impl)
    requires a in Hierarchy(generics, f)
    ensures a.root in Labels(f) && a.grandchild in Labels(f)
  {
    Membership(generics, f, a);
    var n, m :| n in Nodes(f) && m in Children(n) && n.name == a.root && m.name == a.child && a.grandchild in Labels(Children(m));
    LabelsInward(f, n);
    InLabels(Children(n), a.grandchild);
  }

  lemma OnceConcat(x: seq<Impl>, y: seq<Impl>)
    requires OncePerPair(x) && OncePerPair(y)
    requires forall a, b :: a in x && b in y ==> a.root != b.root || a.grandchild != b.grandchild
    ensures OncePerPair(x + y)
  {
    forall i, j | 0 <= i < j < |x + y|
      ensures (x + y)[i].root != (x + y)[j].root || (x + y)[i].grandchild != (x + y)[j].grandchild
    {
      if j < |x| {
        assert (x + y)[i] == x[i] && (x + y)[j] == x[j];
      } else if i < |x| {
        assert x[i] in x && y[j - |x|] in y;
      } else {
        assert (x + y)[i] == y[i - |x|] && (x + y)[j] == y[j - |x|];
      }
    }
  }

  lemma {:induction false} ChildInternalsOnce(generics: seq<Token>, root: Label, children: seq<Node>)
    requires Distinct(Labels(children))
    ensures OncePerPair(ChildInternals(generics, root, children))
    decreases children
  {
    if children != [] {
      var h, t := children[0], children[1..];
      DistinctParts(children);
      ChildInternalsOnce(generics, root, t);
      var first := if h.Leaf? then [] else Internals(generics, root, h.name, h.children);
      assert ChildInternals(generics, root, children) == first + ChildInternals(generics, root, t);
      forall a, b | a in first && b in ChildInternals(generics, root, t)
        ensures a.root != b.root || a.grandchild != b.grandchild
      {
        var k :| 0 <= k < |first| && first[k] == a;
        assert a.grandchild in Labels(Children(h));
      }
      OnceConcat(first, ChildInternals(generics, root, t));
    }
  }

  /** Uniqueness: with distinct labels every (ancestor, descendant) pair gets at most one impl. */
  lemma {:induction false} Uniqueness(generics: seq<Token>, f: seq<Node>)
    requires Distinct(Labels(f))
    ensures OncePerPair(Hierarchy(generics, f))
    decreases f
  {
    if f != [] {
      var h, cs, t := f[0], Children(f[0]), f[1..];
      DistinctParts(f);
      Uniqueness(generics, t);
      var part := if h.Leaf? then [] else Hierarchy(generics, cs) + ChildInternals(generics, h.name, cs);
      assert Hierarchy(generics, f) == part + Hierarchy(generics, t);
      if h.Branch? {
        Uniqueness(generics, cs);
        ChildInternalsOnce(generics, h.name, cs);
        forall a, b | a in Hierarchy(generics, cs) && b in ChildInternals(generics, h.name, cs)
          ensures a.root != b.root || a.grandchild != b.grandchild
        {
          LabelsOfImpl(generics, cs, a);
        }
        OnceConcat(Hierarchy(generics, cs), ChildInternals(generics, h.name, cs));
      }
      forall a, b | a in part && b in Hierarchy(generics, t)
        ensures a.root != b.root || a.grandchild != b.grandchild
      {
        LabelsOfImpl(generics, t, b);
        if a in Hierarchy(generics, cs) {
          LabelsOfImpl(generics, cs, a);
        }
      }
      OnceConcat(part, Hierarchy(generics, t));
    }
  }

  /** With distinct labels, each pair two or more edges apart is implemented at exactly one position. */
  lemma ExactlyOnce(generics: seq<Token>, f: seq<Node>, p: Label, g: Label)
    requires Distinct(Labels(f)) && Below(f, p, g) && !IsEdge(f, p, g)
    ensures var out := Hierarchy(generics, f);
      exists i :: 0 <= i < |out| && out[i].root == p && out[i].grandchild == g &&
        forall j :: 0 <= j < |out| && out[j].root == p && out[j].grandchild == g ==> j == i
  {
    var out := Hierarchy(generics, f);
    Completeness(generics, f, p, g);
    Uniqueness(generics, f);
    var c :| Impl(generics, p, c, g) in out;
    var i :| 0 <= i < |out| && out[i] == Impl(generics, p, c, g);
    forall j | 0 <= j < |out| && out[j].root == p && out[j].grandchild == g ensures j == i {
    }
  }

  /** Edges of a subforest are edges of the whole forest. */
  lemma AvailableWider(f: seq<Node>, sub: seq<Node>, out: seq<Impl>)
    requires Available(sub, out)
    requires forall x :: x in Nodes(sub) ==> x in Nodes(f)
    ensures Available(f, out)
  {
    forall i | 0 <= i < |out| && IsEdge(sub, out[i].child, out[i].grandchild)
      ensures IsEdge(f, out[i].child, out[i].grandchild)
    {
      var n, m :| n in Nodes(sub) && m in Children(n) && n.name == out[i].child && m.name == out[i].grandchild;
      assert n in Nodes(f);
    }
  }

  lemma AvailableConcat(f: seq<Node>, x: seq<Impl>, y: seq<Impl>)
    requires Available(f, x)
    requires forall k :: 0 <= k < |y| ==>
      IsEdge(f, y[k].child, y[k].grandchild) ||
      (exists j :: 0 <= j < |x| && x[j].root == y[k].child && x[j].grandchild == y[k].grandchild) ||
      (exists j :: 0 <= j < k && y[j].root == y[k].child && y[j].grandchild == y[k].grandchild)
    ensures Available(f, x + y)
  {
    var out := x + y;
    forall i | 0 <= i < |out| && !IsEdge(f, out[i].child, out[i].grandchild)
      ensures exists j :: 0 <= j < i && out[j].root == out[i].child && out[j].grandchild == out[i].grandchild
    {
      if i < |x| {
        assert out[i] == x[i];
        var j :| 0 <= j < i && x[j].root == x[i].child && x[j].grandchild == x[i].grandchild;
        assert out[j] == x[j];
      } else {
        var k := i - |x|;
        assert out[i] == y[k];
        if exists j :: 0 <= j < |x| && x[j].root == y[k].child && x[j].grandchild == y[k].grandchild {
          var j :| 0 <= j < |x| && x[j].root == y[k].child && x[j].grandchild == y[k].grandchild;
          assert out[j] == x[j];
        } else {
          var j :| 0 <= j < k && y[j].root == y[k].child && y[j].grandchild == y[k].grandchild;
          assert out[|x| + j] == y[j];
        }
      }
    }
  }

  /**
    Availability ordering: because the children's own expansion is written
    before the impls at their parent, every impl's inner conversion is a
    written edge or an impl written earlier.
  */
  lemma {:induction false} Ordering(generics: seq<Token>, f: seq<Node>)
    ensures Available(f, Hierarchy(generics, f))
    decreases f
  {
    if f != [] {
      var h, cs, t := f[0], Children(f[0]), f[1..];
      Unfold(f);
      assert h in Nodes(f);
      NodesInward(f, h);
      Ordering(generics, t);
      AvailableWider(f, t, Hierarchy(generics, t));
      var part := if h.Leaf? then [] else Hierarchy(generics, cs) + ChildInternals(generics, h.name, cs);
      assert Hierarchy(generics, f) == part + Hierarchy(generics, t);
      if h.Branch? {
        var x, y := Hierarchy(generics, cs), ChildInternals(generics, h.name, cs);
        Ordering(generics, cs);
        AvailableWider(f, cs, x);
        forall k | 0 <= k < |y| && !IsEdge(f, y[k].child, y[k].grandchild)
          ensures exists j :: 0 <= j < |x| && x[j].root == y[k].child && x[j].grandchild == y[k].grandchild
        {
          var a := y[k];
          ChildInternalsMembers(generics, h.name, cs, a);
          var m :| m in cs && m.name == a.child && a.grandchild in Labels(Children(m));
          RootsAreNodes(cs, m);
          InLabels(Children(m), a.grandchild);
          var m2 :| m2 in Children(m) && (m2.name == a.grandchild || a.grandchild in Labels(Children(m2)));
          if m2.name == a.grandchild {
            assert false;
          }
          Membership(generics, cs, Impl(generics, a.child, m2.name, a.grandchild));
          var j :| 0 <= j < |x| && x[j] == Impl(generics, a.child, m2.name, a.grandchild);
        }
        AvailableConcat(f, x, y);
      }
      assert Available(f, part);
      forall k | 0 <= k < |Hierarchy(generics, t)|
        ensures var y := Hierarchy(generics, t);
          IsEdge(f, y[k].child, y[k].grandchild) ||
          exists j :: 0 <= j < k && y[j].root == y[k].child && y[j].grandchild == y[k].grandchild
      {
      }
      AvailableConcat(f, part, Hierarchy(generics, t));
    }
  }

  lemma RebindConcat(x: seq<Impl>, y: seq<Impl>, generics: seq<Token>)
    ensures Rebind(x + y, generics) == Rebind(x, generics) + Rebind(y, generics)
  {
  }

  lemma {:induction false} ChildInternalsRebind(g1: seq<Token>, g2: seq<Token>, root: Label, children: seq<Node>)
    ensures ChildInternals(g2, root, children) == Rebind(ChildInternals(g1, root, children), g2)
    decreases children
  {
    if children != [] {
      var h, t := children[0], children[1..];
      ChildInternalsRebind(g1, g2, root, t);
      var first1 := if h.Leaf? then [] else Internals(g1, root, h.name, h.children);
      var first2 := if h.Leaf? then [] else Internals(g2, root, h.name, h.children);
      assert first2 == Rebind(first1, g2);
      RebindConcat(first1, ChildInternals(g1, root, t), g2);
    }
  }

  /**
    Binding uniformity: the generics list is only stamped onto each impl;
    which impls are written, and in which order, does not depend on it.
  */
  lemma {:induction false} GenericsOnlyStamped(g1: seq<Token>, g2: seq<Token>, f: seq<Node>)
    ensures Hierarchy(g2, f) == Rebind(Hierarchy(g1, f), g2)
    decreases f
  {
    if f != [] {
      var h, cs, t := f[0], Children(f[0]), f[1..];
      GenericsOnlyStamped(g1, g2, t);
      if h.Branch? {
        GenericsOnlyStamped(g1, g2, cs);
        ChildInternalsRebind(g1, g2, h.name, cs);
        RebindConcat(Hierarchy(g1, cs), ChildInternals(g1, h.name, cs), g2);
        RebindConcat(Hierarchy(g1, cs) + ChildInternals(g1, h.name, cs), Hierarchy(g1, t), g2);
      } else {
        RebindConcat([], Hierarchy(g1, t), g2);
      }
    }
  }

  /**
    A forest yields no impls exactly when no node has a grandchild: roots
    and children written without a block, or with only leaves in it,
    contribute nothing.
  */
  lemma EmptyIffShallow(generics: seq<Token>, f: seq<Node>)
    ensures Hierarchy(generics, f) == [] <==> forall n, m :: n in Nodes(f) && m in Children(n) ==> Children(m) == []
  {
    var out := Hierarchy(generics, f);
    if out != [] {
      Membership(generics, f, out[0]);
    }
    if exists n, m :: n in Nodes(f) && m in Children(n) && Children(m) != [] {
      var n, m :| n in Nodes(f) && m in Children(n) && Children(m) != [];
      LabelsEmpty(Children(m));
      var g := Labels(Children(m))[0];
      Membership(generics, f, Impl(generics, n.name, m.name, g));
    }
  }

  /** A root written without a block contributes nothing: the rest of the forest expands as on its own. */
  lemma LeafRootSilent(generics: seq<Token>, x: Label, rest: seq<Node>)
    ensures Hierarchy(generics, [Leaf(x)] + rest) == Hierarchy(generics, rest)
  {
    assert ([Leaf(x)] + rest)[1..] == rest;
  }

  /** A root written with an empty block contributes nothing either. */
  lemma EmptyRootSilent(generics: seq<Token>, x: Label, rest: seq<Node>)
    ensures Hierarchy(generics, [Branch(x, [])] + rest) == Hierarchy(generics, rest)
  {
    assert ([Branch(x, [])] + rest)[1..] == rest;
  }

  /** A child written without a block gives no call of `__hierarchy_internals!`. */
  lemma LeafChildSilent(generics: seq<Token>, root: Label, x: Label, rest: seq<Node>)
    ensures ChildInternals(generics, root, [Leaf(x)] + rest) == ChildInternals(generics, root, rest)
  {
    assert ([Leaf(x)] + rest)[1..] == rest;
  }
}
