/**
 * The plugin as it runs: the hast tree is a structure of objects whose
 * property maps are overwritten in place, walked pre-order by a recursive
 * `visit` with a loop over each node's children. Each method is proved
 * against the tree-value functions of SlugTree and SlugPlugin, applied to
 * the tree as it was before the call.
 */
module SlugNodes {
  import opened SlugTree
  import opened SlugPlugin

  class Node {
    const kind: string
    const tagName: string
    var properties: Props
    const children: seq<Node>
    /** The nodes of the subtree rooted here. */
    ghost const Repr: set<Node>

    /** A tree: children own disjoint subtrees, none containing its parent. */
    ghost predicate Valid()
      decreases Repr
    {
      && this in Repr
      && (forall i :: 0 <= i < |children| ==>
            && children[i] in Repr
            && children[i].Repr <= Repr
            && this !in children[i].Repr
            && children[i].Valid())
      && (forall i, j :: 0 <= i < |children| && 0 <= j < |children| && i != j ==> Apart(i, j))
    }

    /** Children i and j own disjoint subtrees. */
    ghost predicate Apart(i: nat, j: nat)
      requires i < |children| && j < |children|
    {
      children[i].Repr !! children[j].Repr
    }

    /** The subtree rooted here, as a value. */
    ghost function Snapshot(): (t: Tree)
      requires Valid()
      reads Repr
      decreases Repr
      ensures |t.children| == |children|
    {
      Tree(kind, tagName, properties,
           seq(|children|, i requires 0 <= i < |children| && Valid() reads Repr => children[i].Snapshot()))
    }

    constructor (kind: string, tagName: string, properties: Props, children: seq<Node>)
      requires forall i :: 0 <= i < |children| ==> children[i].Valid()
      requires forall i, j :: 0 <= i < j < |children| ==> children[i].Repr !! children[j].Repr
      ensures this.kind == kind && this.tagName == tagName && this.properties == properties
      ensures this.children == children
      ensures Valid() && fresh(Repr - set i, n | 0 <= i < |children| && n in children[i].Repr :: n)
    {
      this.kind := kind;
      this.tagName := tagName;
      this.properties := properties;
      this.children := children;
      this.Repr := {this} + set i, n | 0 <= i < |children| && n in children[i].Repr :: n;
    }
  }

  /** A subtree none of whose nodes changed has the same snapshot. */
  twostate lemma SnapshotKept(n: Node)
    requires n.Valid() && unchanged(n.Repr)
    ensures n.Snapshot() == old(n.Snapshot())
  {
  }

  /**
   * The walk: calls the visitor on node when its type is `kind`, then walks
   * each child in order. The visitor updates the node's properties (f) and
   * the state it closes over (g, an accumulator threaded through the walk);
   * both see the properties as they were before the visit.
   */
  method Visit<A>(node: Node, kind: string, f: Rule, g: Step<A>, acc: A, ghost t0: Tree) returns (acc': A)
    requires node.Valid() && node.Snapshot() == t0
    modifies node.Repr
    decreases node.Repr, 1
    ensures node.Snapshot() == MapProps(t0, OnKind(kind, f))
    ensures acc' == Fold(t0, OnKindStep(kind, g), acc)
  {
    acc' := acc;
    if node.kind == kind {
      acc' := g(node.kind, node.tagName, node.properties, acc);
      node.properties := f(node.kind, node.tagName, node.properties);
    }
    acc' := VisitChildren(node, kind, f, g, acc', t0, OnKind(kind, f), OnKindStep(kind, g));
    assert node.Snapshot().children == MapProps(t0, OnKind(kind, f)).children;
  }

  /**
   * The walk's loop over node's children, each walked in turn; F and G name
   * the visitor as the walk applies it, restricted to nodes of type `kind`.
   */
  method VisitChildren<A>(node: Node, kind: string, f: Rule, g: Step<A>, acc: A, ghost t0: Tree, ghost F: Rule, ghost G: Step<A>) returns (acc': A)
    requires F == OnKind(kind, f) && G == OnKindStep(kind, g)
    requires node.Valid() && |t0.children| == |node.children|
    requires forall k :: 0 <= k < |node.children| ==> node.children[k].Snapshot() == t0.children[k]
    modifies node.Repr - {node}
    decreases node.Repr, 0
    ensures forall k :: 0 <= k < |node.children| ==> node.children[k].Snapshot() == MapProps(t0.children[k], F)
    ensures acc' == FoldChildren(t0, G, |t0.children|, acc)
  {
    acc' := acc;
    var i := 0;
    while i < |node.children|
      invariant 0 <= i <= |node.children|
      invariant forall k :: 0 <= k < i ==> node.children[k].Snapshot() == MapProps(t0.children[k], F)
      invariant forall k :: i <= k < |node.children| ==> node.children[k].Snapshot() == t0.children[k]
      invariant acc' == FoldChildren(t0, G, i, acc)
    {
      var child := node.children[i];
      FoldChildrenStep(t0, G, i, acc);
      label Before:
      acc' := Visit(child, kind, f, g, acc', t0.children[i]);
      forall k | 0 <= k < |node.children| && k != i
        ensures node.children[k].Snapshot() == old@Before(node.children[k].Snapshot())
      {
        assert node.Apart(k, i);
        SnapshotKept@Before(node.children[k]);
      }
      i := i + 1;
    }
  }

  /** A visitor that closes over no state: the unit accumulator passes through. */
  function NoState(): Step<()> {
    (kind, tag, p, u) => u
  }

  /**
   * The plugin's transformer on the tree in place: pass 1 renames Cyrillic
   * heading ids and builds the id map; pass 2, skipped when the map is
   * empty, retargets `#old-id` links.
   */
  method Transform(root: Node, d: Dialect)
    requires root.Valid()
    modifies root.Repr
    ensures root.Snapshot() == Transformed(old(root.Snapshot()), d)
  {
    ghost var t0 := root.Snapshot();
    var idMap := Visit(root, "element", HeadingRule(d), Recorder(d), map[], t0);
    ElementFilterIsRedundant(t0, d, map[]);
    if |idMap| == 0 {
      return;
    }
    ghost var t1 := root.Snapshot();
    var _ := Visit(root, "element", LinkRule(idMap), NoState(), (), t1);
    ElementFilterIsRedundant(t1, d, idMap);
  }
}
