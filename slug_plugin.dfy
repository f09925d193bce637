/**
 * What the rehype-transliterate-slugs plugin does to a tree, as functions on
 * tree values: pass 1 renames the ids of h1–h6 elements whose id is Cyrillic
 * and records old id to new id; pass 2, skipped when nothing was recorded,
 * points same-document links at the new ids. Both copies of the plugin are
 * covered; they differ only in the Cyrillic detector (see Dialect).
 */
module SlugPlugin {
  import opened Translit
  import opened SlugTree

  /** The CommonJS copy (.js) tests U+0400..U+04FF; the ES-module copy (.mjs) tests [а-яёА-ЯЁ]. */
  datatype Dialect = CommonJs | EsModule

  predicate HasCyrillic(d: Dialect, s: string) {
    match d
    case CommonJs => HasCyrillicBlock(s)
    case EsModule => HasRussianLetter(s)
  }

  predicate IsHeadingTag(tag: string) {
    tag in ["h1", "h2", "h3", "h4", "h5", "h6"]
  }

  /** Pass 1's test: an h1–h6 element whose id is present, non-empty and Cyrillic. */
  predicate RenamesId(d: Dialect, kind: string, tag: string, p: Props) {
    kind == "element" && IsHeadingTag(tag) && "id" in p && p["id"] != "" && HasCyrillic(d, p["id"])
  }

  /**
   * Pass 1's visitor on one node's properties: only the id of a qualifying
   * heading changes, to its transliteration, which the ES-module detector no
   * longer calls Cyrillic.
   */
  function RenameId(d: Dialect, kind: string, tag: string, p: Props): (q: Props)
    ensures q.Keys == p.Keys
    ensures forall k :: k in p && k != "id" ==> q[k] == p[k]
    ensures RenamesId(d, kind, tag, p) ==> q["id"] == Transliterate(p["id"]) && !HasRussianLetter(q["id"])
    ensures !RenamesId(d, kind, tag, p) ==> q == p
  {
    if RenamesId(d, kind, tag, p) then
      NoRussianLetterAfterTransliterate(p["id"]);
      p["id" := Transliterate(p["id"])]
    else p
  }

  /** Pass 1's visitor on the id map, idMap[id] = newId: one key added or overwritten, the others kept. */
  function RecordId(d: Dialect, kind: string, tag: string, p: Props, idMap: map<string, string>): (m: map<string, string>)
    ensures m.Keys == idMap.Keys + (if RenamesId(d, kind, tag, p) then {p["id"]} else {})
    ensures RenamesId(d, kind, tag, p) ==> m[p["id"]] == Transliterate(p["id"])
    ensures forall k :: k in idMap && !(RenamesId(d, kind, tag, p) && k == p["id"]) ==> m[k] == idMap[k]
  {
    if RenamesId(d, kind, tag, p) then idMap[p["id"] := Transliterate(p["id"])] else idMap
  }

  /** Pass 2's test: an `a` element whose href starts with '#' and whose fragment maps to a non-empty id. */
  predicate RetargetsHref(idMap: map<string, string>, kind: string, tag: string, p: Props) {
    && kind == "element" && tag == "a" && "href" in p
    && |p["href"]| > 0 && p["href"][0] == '#'
    && p["href"][1..] in idMap && idMap[p["href"][1..]] != ""
  }

  /** Pass 2's visitor on one node's properties: only a retargeted href changes, to "#" and the new id. */
  function RetargetHref(idMap: map<string, string>, kind: string, tag: string, p: Props): (q: Props)
    ensures q.Keys == p.Keys
    ensures forall k :: k in p && k != "href" ==> q[k] == p[k]
    ensures RetargetsHref(idMap, kind, tag, p) ==> q["href"] == "#" + idMap[p["href"][1..]]
    ensures !RetargetsHref(idMap, kind, tag, p) ==> q == p
  {
    if RetargetsHref(idMap, kind, tag, p) then p["href" := "#" + idMap[p["href"][1..]]] else p
  }

  function HeadingRule(d: Dialect): Rule {
    (kind, tag, p) => RenameId(d, kind, tag, p)
  }

  function LinkRule(idMap: map<string, string>): Rule {
    (kind, tag, p) => RetargetHref(idMap, kind, tag, p)
  }

  /** Pass 1's visitor on the id map, as a fold step. */
  function Recorder(d: Dialect): Step<map<string, string>> {
    (kind, tag, p, idMap) => RecordId(d, kind, tag, p, idMap)
  }

  /**
   * The id map pass 1 leaves after visiting t (pre-order), starting from
   * idMap: the start map with exactly the renamed heading ids added, each
   * mapped to its transliteration. A new id depends on the old id alone, so
   * when two headings share an id the last write stores the same value as
   * the first.
   */
  function CollectIds(t: Tree, d: Dialect, idMap: map<string, string>): (m: map<string, string>)
    ensures m == idMap + IdMapOf(RenamedIds(t, d))
  {
    FoldRecordsRenamedIds(t, d, idMap);
    Fold(t, Recorder(d), idMap)
  }

  /**
   * The whole plugin on a tree value: pass 1, then pass 2 unless the id map
   * is empty. Node by node, the result is related to the input by PluginStep
   * over the set of renamed ids.
   */
  function Transformed(t: Tree, d: Dialect): (r: Tree)
    ensures Related(t, r, PluginStep(d, RenamedIds(t, d)))
  {
    var renamed := MapProps(t, HeadingRule(d));
    var idMap := CollectIds(t, d, map[]);
    PassesMeetPluginStep(t, d);
    if |idMap| == 0 then renamed else MapProps(renamed, LinkRule(idMap))
  }

  /** An `a` element whose href is "#" and a renamed id with a non-empty transliteration. */
  predicate LinksToRenamed(kind: string, tag: string, p: Props, ids: set<string>) {
    && kind == "element" && tag == "a" && "href" in p
    && |p["href"]| > 0 && p["href"][0] == '#'
    && p["href"][1..] in ids && Transliterate(p["href"][1..]) != ""
  }

  /**
   * What the plugin does to one node, stated with the set of renamed ids
   * rather than the id map: a renamed heading id becomes its
   * transliteration; an `a` element's href "#x" becomes "#" + the
   * transliteration of x exactly when x is a renamed id whose transliteration
   * is not empty; every other property map is kept.
   */
  function PluginNode(d: Dialect, ids: set<string>, kind: string, tag: string, p: Props): Props {
    if RenamesId(d, kind, tag, p) then p["id" := Transliterate(p["id"])]
    else if LinksToRenamed(kind, tag, p, ids) then p["href" := "#" + Transliterate(p["href"][1..])]
    else p
  }

  function PluginStep(d: Dialect, ids: set<string>): Relation {
    (kind, tag, p, q) => q == PluginNode(d, ids, kind, tag, p)
  }

  /** One node: pass 1 then pass 2 with the map of the renamed ids is PluginStep. */
  lemma RunRuleMeetsPluginStep(d: Dialect, ids: set<string>, kind: string, tag: string, p: Props)
    ensures PluginStep(d, ids)(kind, tag, p, RunRule(d, IdMapOf(ids))(kind, tag, p))
  {
    var idMap := IdMapOf(ids);
    var q := RenameId(d, kind, tag, p);
    if LinksToRenamed(kind, tag, p, ids) {
      var x := p["href"][1..];
      assert x in idMap;
      assert |idMap| != 0 by { assert idMap == idMap[x := idMap[x]]; }
      assert RetargetsHref(idMap, kind, tag, q);
    }
  }

  lemma PassesMeetPluginStep(t: Tree, d: Dialect)
    ensures var idMap := Fold(t, Recorder(d), map[]);
      Related(t, if |idMap| == 0 then MapProps(t, HeadingRule(d)) else MapProps(MapProps(t, HeadingRule(d)), LinkRule(idMap)),
        PluginStep(d, RenamedIds(t, d)))
  {
    var ids := RenamedIds(t, d);
    var idMap := Fold(t, Recorder(d), map[]);
    FoldRecordsRenamedIds(t, d, map[]);
    assert idMap == IdMapOf(ids);
    var g := RunRule(d, idMap);
    if |idMap| != 0 {
      MapPropsCompose(t, HeadingRule(d), LinkRule(idMap));
    }
    forall kind, tag, p ensures PluginStep(d, ids)(kind, tag, p, g(kind, tag, p)) {
      RunRuleMeetsPluginStep(d, ids, kind, tag, p);
    }
    MapPropsRelated(t, g, PluginStep(d, ids));
  }

  // ---------------------------------------------------------------------------
  // An independent description of the id map: the set of ids pass 1 renames.

  function OwnId(t: Tree, d: Dialect): set<string> {
    if RenamesId(d, t.kind, t.tagName, t.properties) then {t.properties["id"]} else {}
  }

  /** The ids of all nodes in t that pass 1 renames. */
  function RenamedIds(t: Tree, d: Dialect): set<string>
    decreases t, 1
  {
    OwnId(t, d) + ChildRenamedIds(t, d, |t.children|)
  }

  function ChildRenamedIds(t: Tree, d: Dialect, n: nat): set<string>
    requires n <= |t.children|
    decreases t, 0, n
  {
    if n == 0 then {} else ChildRenamedIds(t, d, n - 1) + RenamedIds(t.children[n - 1], d)
  }

  /** Each id mapped to its transliteration. */
  function IdMapOf(ids: set<string>): map<string, string> {
    map id | id in ids :: Transliterate(id)
  }

  lemma IdMapOfUnion(a: set<string>, b: set<string>, m: map<string, string>)
    ensures m + IdMapOf(a) + IdMapOf(b) == m + IdMapOf(a + b)
  {
  }

  /** The fold behind CollectIds records exactly the renamed ids, each with its transliteration. */
  lemma {:induction false} FoldRecordsRenamedIds(t: Tree, d: Dialect, idMap: map<string, string>)
    ensures Fold(t, Recorder(d), idMap) == idMap + IdMapOf(RenamedIds(t, d))
    decreases t, 1
  {
    var own := RecordId(d, t.kind, t.tagName, t.properties, idMap);
    assert own == idMap + IdMapOf(OwnId(t, d));
    CollectChildrenRecordsRenamedIds(t, d, |t.children|, own);
    IdMapOfUnion(OwnId(t, d), ChildRenamedIds(t, d, |t.children|), idMap);
  }

  lemma {:induction false} CollectChildrenRecordsRenamedIds(t: Tree, d: Dialect, n: nat, idMap: map<string, string>)
    requires n <= |t.children|
    ensures FoldChildren(t, Recorder(d), n, idMap) == idMap + IdMapOf(ChildRenamedIds(t, d, n))
    decreases t, 0, n
  {
    if n > 0 {
      var child := t.children[n - 1];
      var a, b := ChildRenamedIds(t, d, n - 1), RenamedIds(child, d);
      CollectChildrenRecordsRenamedIds(t, d, n - 1, idMap);
      var before := FoldChildren(t, Recorder(d), n - 1, idMap);
      assert before == idMap + IdMapOf(a);
      FoldRecordsRenamedIds(child, d, before);
      FoldChildrenStep(t, Recorder(d), n - 1, idMap);
      IdMapOfUnion(a, b, idMap);
      assert ChildRenamedIds(t, d, n) == a + b;
    }
  }

  /** Pass 1 as the plugin runs it, from an empty id map. */
  lemma IdMapIsRenamedIds(t: Tree, d: Dialect)
    ensures CollectIds(t, d, map[]) == IdMapOf(RenamedIds(t, d))
    ensures forall id :: id in CollectIds(t, d, map[]) <==> id in RenamedIds(t, d)
  {
    assert map[] + IdMapOf(RenamedIds(t, d)) == IdMapOf(RenamedIds(t, d));
  }

  lemma {:induction false} ChildRenamedIdsInclude(t: Tree, d: Dialect, n: nat, i: nat)
    requires i < n <= |t.children|
    ensures RenamedIds(t.children[i], d) <= ChildRenamedIds(t, d, n)
  {
    if i < n - 1 {
      ChildRenamedIdsInclude(t, d, n - 1, i);
    }
  }

  /** With no heading id to rename, pass 1 leaves every node as it is. */
  lemma {:induction false} NoRenamedIdsFixes(t: Tree, d: Dialect)
    requires RenamedIds(t, d) == {}
    ensures Fixes(t, HeadingRule(d))
  {
    forall i | 0 <= i < |t.children| ensures Fixes(t.children[i], HeadingRule(d)) {
      ChildRenamedIdsInclude(t, d, |t.children|, i);
      NoRenamedIdsFixes(t.children[i], d);
    }
  }

  /** If no heading qualifies, the id map is empty, pass 2 never runs and the tree is unchanged. */
  lemma NoCyrillicHeadingIsNoOp(t: Tree, d: Dialect)
    requires RenamedIds(t, d) == {}
    ensures CollectIds(t, d, map[]) == map[]
    ensures Transformed(t, d) == t
  {
    IdMapIsRenamedIds(t, d);
    NoRenamedIdsFixes(t, d);
    MapPropsFixed(t, HeadingRule(d));
  }

  /** Neither pass adds, removes or reorders a node, or changes a type or tag. */
  lemma TransformKeepsShape(t: Tree, d: Dialect)
    ensures SameShape(Transformed(t, d), t)
  {
    var renamed := MapProps(t, HeadingRule(d));
    var idMap := CollectIds(t, d, map[]);
    MapPropsKeepsShape(t, HeadingRule(d));
    if |idMap| != 0 {
      MapPropsCompose(t, HeadingRule(d), LinkRule(idMap));
      MapPropsKeepsShape(t, Then(HeadingRule(d), LinkRule(idMap)));
    }
  }

  /** Drops the two properties the plugin may change: id on h1–h6 elements, href on `a` elements. */
  function EraseRule(): Rule {
    (kind: string, tag: string, p: Props) =>
      if kind == "element" && IsHeadingTag(tag) then p - {"id"}
      else if kind == "element" && tag == "a" then p - {"href"}
      else p
  }

  /** The rule the first run applies to every node: pass 1, then pass 2 when the id map is non-empty. */
  function RunRule(d: Dialect, idMap: map<string, string>): Rule {
    if |idMap| == 0 then HeadingRule(d) else Then(HeadingRule(d), LinkRule(idMap))
  }

  lemma TransformedByRunRule(t: Tree, d: Dialect)
    ensures Transformed(t, d) == MapProps(t, RunRule(d, CollectIds(t, d, map[])))
  {
    var idMap := CollectIds(t, d, map[]);
    if |idMap| != 0 {
      MapPropsCompose(t, HeadingRule(d), LinkRule(idMap));
    }
  }

  lemma RunRuleErases(d: Dialect, idMap: map<string, string>, kind: string, tag: string, p: Props)
    ensures EraseRule()(kind, tag, RunRule(d, idMap)(kind, tag, p)) == EraseRule()(kind, tag, p)
  {
    var q := RenameId(d, kind, tag, p);
    var r := RunRule(d, idMap)(kind, tag, p);
    if kind == "element" && IsHeadingTag(tag) {
      assert r == q;
      assert q - {"id"} == p - {"id"};
    } else if kind == "element" && tag == "a" {
      assert q == p;
      assert r - {"href"} == p - {"href"};
    } else {
      assert r == p;
    }
  }

  /** Apart from heading ids and link hrefs, every property of every node is unchanged. */
  lemma TransformChangesOnlyIdsAndHrefs(t: Tree, d: Dialect)
    ensures MapProps(Transformed(t, d), EraseRule()) == MapProps(t, EraseRule())
  {
    var g := RunRule(d, CollectIds(t, d, map[]));
    TransformedByRunRule(t, d);
    MapPropsCompose(t, g, EraseRule());
    forall kind, tag, p ensures Then(g, EraseRule())(kind, tag, p) == EraseRule()(kind, tag, p) {
      RunRuleErases(d, CollectIds(t, d, map[]), kind, tag, p);
    }
    MapPropsPointwise(t, Then(g, EraseRule()), EraseRule());
  }

  /** RenamedIds of a rewritten tree: if every renameable id the rule leaves satisfies P, all of them do. */
  lemma {:induction false} RenamedIdsOfMapped(t: Tree, f: Rule, d: Dialect, P: string -> bool)
    requires forall kind, tag, p :: RenamesId(d, kind, tag, f(kind, tag, p)) ==> P(f(kind, tag, p)["id"])
    ensures forall id :: id in RenamedIds(MapProps(t, f), d) ==> P(id)
    decreases t, 1
  {
    ChildRenamedIdsOfMapped(t, f, d, P, |t.children|);
  }

  lemma {:induction false} ChildRenamedIdsOfMapped(t: Tree, f: Rule, d: Dialect, P: string -> bool, n: nat)
    requires forall kind, tag, p :: RenamesId(d, kind, tag, f(kind, tag, p)) ==> P(f(kind, tag, p)["id"])
    requires n <= |t.children|
    ensures forall id :: id in ChildRenamedIds(MapProps(t, f), d, n) ==> P(id)
    decreases t, 0, n
  {
    if n > 0 {
      ChildRenamedIdsOfMapped(t, f, d, P, n - 1);
      RenamedIdsOfMapped(t.children[n - 1], f, d, P);
      var u := MapProps(t, f);
      assert u.children[n - 1] == MapProps(t.children[n - 1], f);
      assert ChildRenamedIds(u, d, n) == ChildRenamedIds(u, d, n - 1) + RenamedIds(u.children[n - 1], d);
    }
  }

  /** On a heading, the first run's rule is pass 1's rule: pass 2 touches only `a` elements. */
  lemma RunRuleOnHeading(d: Dialect, idMap: map<string, string>, kind: string, tag: string, p: Props)
    requires RenamesId(d, kind, tag, RunRule(d, idMap)(kind, tag, p))
    ensures RunRule(d, idMap)(kind, tag, p) == RenameId(d, kind, tag, p)
  {
  }

  /** After the first run, a heading id that pass 1 would rename again is its own transliteration. */
  lemma RunRuleSettlesIds(d: Dialect, idMap: map<string, string>, kind: string, tag: string, p: Props)
    requires RenamesId(d, kind, tag, RunRule(d, idMap)(kind, tag, p))
    ensures Transliterate(RunRule(d, idMap)(kind, tag, p)["id"]) == RunRule(d, idMap)(kind, tag, p)["id"]
  {
    RunRuleOnHeading(d, idMap, kind, tag, p);
    TransliterateIdempotent(p["id"]);
  }

  /** So the second pass 1 leaves the first run's output as it is. */
  lemma RunRuleThenRenameId(d: Dialect, idMap: map<string, string>, kind: string, tag: string, p: Props)
    ensures RenameId(d, kind, tag, RunRule(d, idMap)(kind, tag, p)) == RunRule(d, idMap)(kind, tag, p)
  {
    var q := RunRule(d, idMap)(kind, tag, p);
    if RenamesId(d, kind, tag, q) {
      RunRuleSettlesIds(d, idMap, kind, tag, p);
      assert q["id" := Transliterate(q["id"])] == q;
    }
  }

  /** A pass 2 whose id map sends every key to itself changes no href. */
  lemma SelfMapRetargetsNothing(idMap: map<string, string>, kind: string, tag: string, p: Props)
    requires forall id :: id in idMap ==> idMap[id] == id
    ensures RetargetHref(idMap, kind, tag, p) == p
  {
    if RetargetsHref(idMap, kind, tag, p) {
      var href := p["href"];
      assert href == "#" + href[1..];
    }
  }

  /** Running the plugin on its own output changes nothing, with either detector. */
  lemma TransformIdempotent(t: Tree, d: Dialect)
    ensures Transformed(Transformed(t, d), d) == Transformed(t, d)
  {
    var g := RunRule(d, CollectIds(t, d, map[]));
    var t2 := Transformed(t, d);
    TransformedByRunRule(t, d);
    // Every id the second run renames is already its own transliteration ...
    forall kind, tag, p | RenamesId(d, kind, tag, g(kind, tag, p))
      ensures Transliterate(g(kind, tag, p)["id"]) == g(kind, tag, p)["id"]
    {
      RunRuleSettlesIds(d, CollectIds(t, d, map[]), kind, tag, p);
    }
    RenamedIdsOfMapped(t, g, d, id => Transliterate(id) == id);
    // ... so the second pass 1 changes nothing ...
    MapPropsCompose(t, g, HeadingRule(d));
    forall kind, tag, p ensures Then(g, HeadingRule(d))(kind, tag, p) == g(kind, tag, p) {
      RunRuleThenRenameId(d, CollectIds(t, d, map[]), kind, tag, p);
    }
    MapPropsPointwise(t, Then(g, HeadingRule(d)), g);
    // ... and its id map sends each key to itself, so the second pass 2 changes nothing either.
    var m2 := CollectIds(t2, d, map[]);
    IdMapIsRenamedIds(t2, d);
    if |m2| != 0 {
      forall kind, tag, p ensures LinkRule(m2)(kind, tag, p) == p {
        SelfMapRetargetsNothing(m2, kind, tag, p);
      }
      IdentityFixes(t2, LinkRule(m2));
      MapPropsFixed(t2, LinkRule(m2));
    }
  }

  /** With the ES-module detector the second run finds no Cyrillic heading id and skips pass 2. */
  lemma EsModuleSecondRunRenamesNothing(t: Tree)
    ensures RenamedIds(Transformed(t, EsModule), EsModule) == {}
    ensures CollectIds(Transformed(t, EsModule), EsModule, map[]) == map[]
  {
    var g := RunRule(EsModule, CollectIds(t, EsModule, map[]));
    TransformedByRunRule(t, EsModule);
    forall kind, tag, p | RenamesId(EsModule, kind, tag, g(kind, tag, p)) ensures false {
      RunRuleOnHeading(EsModule, CollectIds(t, EsModule, map[]), kind, tag, p);
    }
    RenamedIdsOfMapped(t, g, EsModule, id => false);
    NoCyrillicHeadingIsNoOp(Transformed(t, EsModule), EsModule);
  }

  /**
   * The walk hands only `element` nodes to the visitors; both visitors'
   * tests already require that type, so the filter changes nothing.
   */
  lemma ElementFilterIsRedundant(t: Tree, d: Dialect, idMap: map<string, string>)
    ensures MapProps(t, OnKind("element", HeadingRule(d))) == MapProps(t, HeadingRule(d))
    ensures Fold(t, OnKindStep("element", Recorder(d)), idMap) == CollectIds(t, d, idMap)
    ensures MapProps(t, OnKind("element", LinkRule(idMap))) == MapProps(t, LinkRule(idMap))
  {
    MapPropsPointwise(t, OnKind("element", HeadingRule(d)), HeadingRule(d));
    FoldPointwise(t, OnKindStep("element", Recorder(d)), Recorder(d), idMap);
    MapPropsPointwise(t, OnKind("element", LinkRule(idMap)), LinkRule(idMap));
  }
}
