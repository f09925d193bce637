/**
 * The document tree as a value (a snapshot of the hast tree the plugin
 * receives) and structure-preserving rewrites of its property maps.
 */
module SlugTree {

  /** Property name to property value; a node without properties has the empty map. */
  type Props = map<string, string>

  /** A node: its unist `type`, its `tagName` (empty when it has none), its properties and children. */
  datatype Tree = Tree(kind: string, tagName: string, properties: Props, children: seq<Tree>)

  /** A per-node rewrite of the properties, as a function of the node's type, tag and properties. */
  type Rule = (string, string, Props) -> Props

  /** Applies a rule to every node, pre-order, changing nothing but property maps. */
  function MapProps(t: Tree, f: Rule): Tree {
    Tree(t.kind, t.tagName, f(t.kind, t.tagName, t.properties),
         seq(|t.children|, i requires 0 <= i < |t.children| => MapProps(t.children[i], f)))
  }

  /** A per-node update of an accumulator, as a function of the node's type, tag and properties. */
  type Step<!A> = (string, string, Props, A) -> A

  /** Threads an accumulator through every node of t, pre-order. */
  function Fold<A>(t: Tree, g: Step<A>, acc: A): A
    decreases t, 1
  {
    FoldChildren(t, g, |t.children|, g(t.kind, t.tagName, t.properties, acc))
  }

  /** Threads an accumulator through the first n children of t, in order. */
  function FoldChildren<A>(t: Tree, g: Step<A>, n: nat, acc: A): A
    requires n <= |t.children|
    decreases t, 0, n
  {
    if n == 0 then acc else Fold(t.children[n - 1], g, FoldChildren(t, g, n - 1, acc))
  }

  /** The rule f applied only to nodes of the given type; other nodes keep their properties. */
  function OnKind(kind: string, f: Rule): Rule {
    (k, tag, p) => if k == kind then f(k, tag, p) else p
  }

  /** The step g taken only at nodes of the given type; other nodes leave the accumulator alone. */
  function OnKindStep<A>(kind: string, g: Step<A>): Step<A> {
    (k, tag, p, acc) => if k == kind then g(k, tag, p, acc) else acc
  }

  /** Rule f followed by rule g. */
  function Then(f: Rule, g: Rule): Rule {
    (kind, tag, p) => g(kind, tag, f(kind, tag, p))
  }

  /** Same node types, tags and child counts at every position: nothing added, removed or reordered. */
  predicate SameShape(a: Tree, b: Tree) {
    && a.kind == b.kind
    && a.tagName == b.tagName
    && |a.children| == |b.children|
    && forall i :: 0 <= i < |a.children| ==> SameShape(a.children[i], b.children[i])
  }

  /** A relation between a node's type, tag and old properties and its new properties. */
  type Relation = (string, string, Props, Props) -> bool

  /** b is a with the same node at every position, each node's new properties related to its old ones by R. */
  predicate Related(a: Tree, b: Tree, R: Relation) {
    && a.kind == b.kind
    && a.tagName == b.tagName
    && |a.children| == |b.children|
    && R(a.kind, a.tagName, a.properties, b.properties)
    && forall i :: 0 <= i < |a.children| ==> Related(a.children[i], b.children[i], R)
  }

  /** The rule leaves every node of t as it is. */
  predicate Fixes(t: Tree, f: Rule) {
    && f(t.kind, t.tagName, t.properties) == t.properties
    && forall i :: 0 <= i < |t.children| ==> Fixes(t.children[i], f)
  }

  lemma {:induction false} MapPropsKeepsShape(t: Tree, f: Rule)
    ensures SameShape(MapProps(t, f), t)
  {
    var u := MapProps(t, f);
    forall i | 0 <= i < |t.children| ensures SameShape(u.children[i], t.children[i]) {
      MapPropsKeepsShape(t.children[i], f);
    }
  }

  /** A rule whose every output is related to its input rewrites a tree into a related one. */
  lemma {:induction false} MapPropsRelated(t: Tree, f: Rule, R: Relation)
    requires forall kind, tag, p :: R(kind, tag, p, f(kind, tag, p))
    ensures Related(t, MapProps(t, f), R)
  {
    var u := MapProps(t, f);
    forall i | 0 <= i < |t.children| ensures Related(t.children[i], u.children[i], R) {
      MapPropsRelated(t.children[i], f, R);
    }
  }

  lemma {:induction false} MapPropsCompose(t: Tree, f: Rule, g: Rule)
    ensures MapProps(MapProps(t, f), g) == MapProps(t, Then(f, g))
  {
    var u, v := MapProps(MapProps(t, f), g), MapProps(t, Then(f, g));
    forall i | 0 <= i < |t.children| ensures u.children[i] == v.children[i] {
      MapPropsCompose(t.children[i], f, g);
    }
    assert u.children == v.children;
  }

  lemma {:induction false} MapPropsPointwise(t: Tree, f: Rule, g: Rule)
    requires forall kind, tag, p :: f(kind, tag, p) == g(kind, tag, p)
    ensures MapProps(t, f) == MapProps(t, g)
  {
    var u, v := MapProps(t, f), MapProps(t, g);
    forall i | 0 <= i < |t.children| ensures u.children[i] == v.children[i] {
      MapPropsPointwise(t.children[i], f, g);
    }
    assert u.children == v.children;
  }

  lemma {:induction false} MapPropsFixed(t: Tree, f: Rule)
    requires Fixes(t, f)
    ensures MapProps(t, f) == t
  {
    var u := MapProps(t, f);
    forall i | 0 <= i < |t.children| ensures u.children[i] == t.children[i] {
      MapPropsFixed(t.children[i], f);
    }
    assert u.children == t.children;
  }

  lemma {:induction false} IdentityFixes(t: Tree, f: Rule)
    requires forall kind, tag, p :: f(kind, tag, p) == p
    ensures Fixes(t, f)
  {
    forall i | 0 <= i < |t.children| ensures Fixes(t.children[i], f) {
      IdentityFixes(t.children[i], f);
    }
  }

  /** Visiting child i after the first i children. */
  lemma FoldChildrenStep<A>(t: Tree, g: Step<A>, i: nat, acc: A)
    requires i < |t.children|
    ensures FoldChildren(t, g, i + 1, acc) == Fold(t.children[i], g, FoldChildren(t, g, i, acc))
  {
  }

  lemma {:induction false} FoldPointwise<A>(t: Tree, g: Step<A>, h: Step<A>, acc: A)
    requires forall kind, tag, p, a :: g(kind, tag, p, a) == h(kind, tag, p, a)
    ensures Fold(t, g, acc) == Fold(t, h, acc)
    decreases t, 1
  {
    FoldChildrenPointwise(t, g, h, |t.children|, g(t.kind, t.tagName, t.properties, acc));
  }

  lemma {:induction false} FoldChildrenPointwise<A>(t: Tree, g: Step<A>, h: Step<A>, n: nat, acc: A)
    requires forall kind, tag, p, a :: g(kind, tag, p, a) == h(kind, tag, p, a)
    requires n <= |t.children|
    ensures FoldChildren(t, g, n, acc) == FoldChildren(t, h, n, acc)
    decreases t, 0, n
  {
    if n > 0 {
      FoldChildrenPointwise(t, g, h, n - 1, acc);
      FoldPointwise(t.children[n - 1], g, h, FoldChildren(t, g, n - 1, acc));
    }
  }
}
