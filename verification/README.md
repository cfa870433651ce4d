# transitive_from: the `hierarchy!` expansion, modelled in Dafny

`transitive_from` is a Rust crate with a single user-facing macro,
`hierarchy!`. The user writes a tree of types, such as `A { B { E, F { J, K } }, C { G }, … }`.
They also implement `From<Child> for Parent` themselves along every tree
edge. The macro then writes the missing `From` impls: one from every type
to every ancestor two or more edges above it. Each generated body is
`<root>::from(<child>::from(g))`. The inner call uses either a written edge
or an impl generated earlier. A conversion from anywhere in the hierarchy
to any ancestor therefore composes the written edges along the tree path.

This project models the three `macro_rules!` macros of `src/lib.rs` as a
pure compiler pass. The input is the already-parsed forest of type labels.
The output is the ordered list of impls the expansion contains.

- `Forest` (`forest.dfy`) holds the parsed input.
  - `Node` is `Leaf(name)` for a type written without a `{ }` block, or `Branch(name, children)` for one written with a block.
  - `Nodes` and `Labels` enumerate a forest in post-order.
  - `IsEdge`, `Below` and `Routed` are the distance-1, distance-at-least-1 and "through this child" relations.
  - `Distinct` says no label is written twice. Under it, no two generated impls, and no generated impl and written edge, share a (root, grandchild) pair (`Uniqueness`, `Exclusion`).
- `Expansion` (`expansion.dfy`) holds the three macros as functions.
  - `Hierarchy` is `hierarchy!`, `ChildInternals` is its second repetition, and `Internals` is `__hierarchy_internals!`.
  - `Impl(generics, root, child, grandchild)` is one expansion of `__hierarchy_internals_impl!`.
  - Each function follows the code's own recursion and its order of output.
- `ExpansionProperties` (`properties.dfy`) proves the following about the expansion:
  - soundness and completeness against the forest;
  - exclusion of written edges;
  - uniqueness of each (root, grandchild) pair;
  - ordering: every body's inner call is available when it is written;
  - the generics list is only stamped on;
  - childless nodes contribute nothing.
- `Conversion` (`conversion.dfy`) gives each generated impl its meaning.
  - The user's edge impls are an abstract function `edge(parent, child, v)`.
  - It proves that, when no label is written twice, the value produced by the `i`-th impl equals chaining `edge` along the tree path from its grandchild to its root.
- `Scenarios` (`scenarios.dfy`) works the two hierarchies written in the crate, first for arbitrary distinct labels and then for the crate's own names:
  - the documentation example: 11 impls, and `A::from(K)`;
  - the unit test: 6 impls, and `SquareError` to `GlobalError<'a>`.

The code and its documentation disagree in one place. The doc comment
(src/lib.rs:33-34) says the macro produces no generic implementations.
However, the macro takes a generics list, which `__hierarchy_internals_impl!`
matches as brackets around comma-separated token trees (src/lib.rs:173), and
writes `impl<$($generic),*>` (src/lib.rs:174), and the unit test uses
`['a]`. The model follows the code: every impl carries the generics list.

The expansion order also follows the code. For each root with a block,
`hierarchy!` recurses once on the whole block (src/lib.rs:130-135). Only
then does it write the impls from each child's block up to the root
(src/lib.rs:136-142). `__hierarchy_internals!` writes an item's deeper
descendants before the item itself (src/lib.rs:157-164).

## Model

| member | source | states |
|---|---|---|
| Expansion.Internals | src/lib.rs:150-167 | one call of `__hierarchy_internals!` writes exactly one impl per label of the block's subtree, in post-order, each with the call's generics, root and child |
| Expansion.ChildInternals | src/lib.rs:136-142 | the per-child calls write only impls with the given generics and root, whose grandchild is a label below that root |
| Expansion.Hierarchy | src/lib.rs:119-146 | every impl of the expansion carries the generics list given to the macro |
| ExpansionProperties.InternalsMembers | src/lib.rs:150-167 | an impl is written by one `__hierarchy_internals!` call iff it has that call's generics, root and child and its grandchild is a label of the block |
| ExpansionProperties.ChildInternalsMembers | src/lib.rs:136-142 | the second repetition writes an impl iff its child is an item of the root's block and its grandchild lies below that child |
| ExpansionProperties.Membership | src/lib.rs:119-180 | soundness and completeness: an impl is in the expansion iff it carries the macro's generics and its grandchild lies below its child, which is an item of its root's block |
| ExpansionProperties.MembershipSound | src/lib.rs:119-180 | every generated impl follows such a root-child-grandchild route of the forest |
| ExpansionProperties.MembershipComplete | src/lib.rs:119-180 | every root-child-grandchild route of the forest is generated |
| ExpansionProperties.Completeness | src/lib.rs:119-180 | for every ancestor and descendant that are not a written edge, some impl from the descendant to the ancestor is generated |
| ExpansionProperties.Exclusion | src/lib.rs:27-28 | with distinct labels, no generated impl duplicates a written edge: its grandchild is below its root but not an item of its block |
| ExpansionProperties.GeneratedIffDistanceTwo | src/lib.rs:23-28 | with distinct labels, an impl from `g` to `p` is generated iff `g` lies below `p` at distance two or more |
| ExpansionProperties.LabelsOfImpl | src/lib.rs:172-180 | both types named in a generated impl header are labels of the input forest |
| ExpansionProperties.ChildInternalsOnce | src/lib.rs:136-142 | with distinct labels, the per-child calls of one root write no (root, grandchild) pair twice |
| ExpansionProperties.Uniqueness | src/lib.rs:119-180 | with distinct labels, no two generated impls share a (root, grandchild) pair, so none conflict |
| ExpansionProperties.ExactlyOnce | src/lib.rs:119-180 | with distinct labels, each ancestor and descendant pair at distance two or more is implemented by exactly one impl |
| ExpansionProperties.Ordering | src/lib.rs:157-164 | every impl's inner `<child>::from(g)` is a written edge or an impl written earlier in the expansion |
| ExpansionProperties.ChildInternalsRebind | src/lib.rs:137-138 | the per-child calls depend on the generics list only by copying it into each impl |
| ExpansionProperties.GenericsOnlyStamped | src/lib.rs:130-131 | two expansions of the same forest with different generics lists differ only in the generics each impl carries |
| ExpansionProperties.EmptyIffShallow | src/lib.rs:123-127 | the expansion is empty iff no child of any node has children of its own |
| ExpansionProperties.LeafRootSilent | src/lib.rs:123 | a root written without a block contributes nothing |
| ExpansionProperties.EmptyRootSilent | src/lib.rs:123-127 | a root written with an empty block contributes nothing |
| ExpansionProperties.LeafChildSilent | src/lib.rs:136-142 | a child written without a block contributes nothing to its root's impls |
| Conversion.PathInClimbs | src/lib.rs:23-26 | the tree path from a label up to its top-level tree climbs written edges one step at a time |
| Conversion.TreePathClimbs | src/lib.rs:23-26 | the tree path from a descendant up to an ancestor starts at the descendant, ends at the ancestor and climbs written edges |
| Conversion.PathInPicks | src/lib.rs:123-126 | with distinct labels, the path to a label goes up through the one item of the block that holds it |
| Conversion.TreePathAt | src/lib.rs:123-126 | with distinct labels, the tree path to a node's label is determined by that node |
| Conversion.RoutedPath | src/lib.rs:172-176 | with distinct labels, the path from an impl's grandchild to its root is the path to its child, followed by the root |
| Conversion.EdgePath | src/lib.rs:23-24 | with distinct labels, a written edge's tree path is the two labels themselves |
| Conversion.ChainSnoc | src/lib.rs:176 | converting along a path and then one more edge is the chain along the extended path |
| Conversion.Realized | src/lib.rs:172-180 | the i-th impl's value is the child-to-root edge applied to the result of its inner `<child>::from(g)`; the definition resolves that inner call to the written edge, or to the earlier impl, as `RealizedStep` states |
| Conversion.RealizedStep | src/lib.rs:176 | an impl's value is its child-to-root edge applied to the written edge or to the earlier impl its body calls |
| Conversion.ImplPath | src/lib.rs:172-176 | with distinct labels, each generated impl's root is at least two edges above its grandchild, with its child directly below the root |
| Conversion.Composition | src/lib.rs:172-180 | with distinct labels, the `i`-th generated impl converts by chaining the written edges along the whole tree path from its grandchild to its root |
| Scenarios.DocShapeExpansion | src/lib.rs:94-107 | for any labels in the documentation example's shape, the expansion is exactly these 11 impls, in this order |
| Scenarios.DocShapeConversion | src/lib.rs:111 | for distinct labels in that shape, the sixth impl goes from `K` to `A` through `B` and computes `A::from(B::from(F::from(k)))` |
| Scenarios.DocExpansion | src/lib.rs:94-107 | `hierarchy!{ [] A { B { E, F { J, K } }, C { G }, D { H, I { L } } } }` expands to exactly the 11 missing impls |
| Scenarios.DocAFromK | src/lib.rs:111 | in the documentation example, `A::from(K)` is the sixth impl and equals `A::from(B::from(F::from(k)))` |
| Scenarios.TestShapeExpansion | src/lib.rs:258-267 | for any labels in the unit test's shape, the expansion is exactly these 6 impls |
| Scenarios.TestShapeConversion | src/lib.rs:269-279 | for distinct labels in that shape, the third impl converts the deepest leaf to the root along its three written edges |
| Scenarios.TestExpansion | src/lib.rs:258-293 | the unit test's `hierarchy!` with `['a]` expands to exactly 6 impls, all with generics `'a`, among them `RedError<'a>` to `GlobalError<'a>` that `baz` converts with `into()` |
| Scenarios.TestSquareToGlobal | src/lib.rs:276-279 | `SquareError` converts to `GlobalError<'a>` via `RectangleError` and `ShapeError`, as `foo()?` in `bar` relies on |

## Left out

- Token-level parsing by `macro_rules!` is not modelled: type expressions, `$(,)?` trailing commas and `:tt` token trees. The model starts from the parsed forest. Labels are compared only for equality, and generics are opaque tokens.
- Generics are not checked for being well formed or in scope. The model only records that each impl carries the list. It does not capture that `__hierarchy_internals_impl!` (src/lib.rs:173) accepts only brackets around comma-separated single token trees, so a list such as `[T: Debug]` fails to expand. It also does not capture that Rust rejects an impl whose header does not use every listed type parameter.
- Rust trait resolution is not modelled. The model does not check that an impl compiles. Instead, `Ordering` shows that every inner `From` call has a written edge or an earlier generated impl to resolve to.
- The user-written edge impls, including the example's `impl_From!` helper (src/lib.rs:71-90) and the test types' `From` impls (src/lib.rs:189-248), are the abstract function `edge`. Their bodies and the test types' fields are not modelled.
- Rust's coherence check is not modelled. `Uniqueness` and `Exclusion` assume that no label is written twice. That assumption is neither necessary nor sufficient for Rust to accept the expansion. A forest such as `A { B }, C { B }` repeats a label and still expands to nothing. Two different labels can name the same type, through an alias or a path such as `crate::A`. The model does not say which impls Rust would reject.
- Conversion.Composition: states the value along `TreePath`, which `PathIn` builds from the forest independently of the impl bodies. No lemma shows that this path is the only chain of written edges from the grandchild to the root.
- Rust's macro recursion limit is not modelled. `hierarchy!` and `__hierarchy_internals!` recurse once per level of nesting, and rustc stops at `recursion_limit` (128 by default). The model expands forests of any depth.
- Crate attributes (`no_std`, `forbid(unsafe_code)`) and the `#[macro_export]`/`#[doc(hidden)]` markers are not part of the model. `Into` is derived from `From` by the standard library and is not modelled.
