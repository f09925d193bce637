/**
 * Worked documents: a root holding one h2 heading and one link, run through
 * the plugin's transform in both dialects.
 */
module SlugExamples {
  import opened Translit
  import opened SlugTree
  import opened SlugPlugin

  function Heading(id: string): Tree { Tree("element", "h2", map["id" := id], []) }
  function Link(href: string): Tree { Tree("element", "a", map["href" := href], []) }

  /** A page with a heading whose id is `id` followed by a link to `href`. */
  function Doc(id: string, href: string): Tree {
    Tree("root", "", map[], [Heading(id), Link(href)])
  }

  /** The ids pass 1 renames on the page: the heading's, when it qualifies. */
  lemma RenamedIdsDoc(d: Dialect, id: string, href: string)
    ensures RenamedIds(Doc(id, href), d) == if RenamesId(d, "element", "h2", map["id" := id]) then {id} else {}
  {
    var t := Doc(id, href);
    assert RenamedIds(Heading(id), d) == OwnId(Heading(id), d);
    assert RenamedIds(Link(href), d) == {};
    assert ChildRenamedIds(t, d, 1) == RenamedIds(Heading(id), d);
  }

  /** A tree related to the page node by node is the page with each node's properties replaced. */
  lemma RelatedDoc(id: string, href: string, r: Tree, R: Relation)
    requires Related(Doc(id, href), r, R)
    ensures |r.children| == 2
    ensures r == Tree("root", "", r.properties, [
      Tree("element", "h2", r.children[0].properties, []),
      Tree("element", "a", r.children[1].properties, [])])
    ensures R("root", "", map[], r.properties)
    ensures R("element", "h2", map["id" := id], r.children[0].properties)
    ensures R("element", "a", map["href" := href], r.children[1].properties)
  {
    var t := Doc(id, href);
    assert Related(t.children[0], r.children[0], R) && Related(t.children[1], r.children[1], R);
    assert r.children == [r.children[0], r.children[1]];
  }

  lemma RootNode(d: Dialect, ids: set<string>)
    ensures PluginNode(d, ids, "root", "", map[]) == map[]
  {
  }

  lemma HeadingNode(d: Dialect, ids: set<string>, id: string)
    ensures PluginNode(d, ids, "element", "h2", map["id" := id])
      == map["id" := if RenamesId(d, "element", "h2", map["id" := id]) then Transliterate(id) else id]
  {
  }

  lemma LinkNode(d: Dialect, ids: set<string>, href: string)
    ensures PluginNode(d, ids, "element", "a", map["href" := href])
      == map["href" := if LinksToRenamed("element", "a", map["href" := href], ids) then "#" + Transliterate(href[1..]) else href]
  {
    assert !RenamesId(d, "element", "a", map["href" := href]);
  }

  /** The plugin on the page: the heading's id and the link's href, each as PluginNode decides. */
  lemma TransformedDoc(d: Dialect, id: string, href: string)
    ensures var ids := RenamedIds(Doc(id, href), d);
      Transformed(Doc(id, href), d) == Doc(
        if RenamesId(d, "element", "h2", map["id" := id]) then Transliterate(id) else id,
        if LinksToRenamed("element", "a", map["href" := href], ids) then "#" + Transliterate(href[1..]) else href)
  {
    var ids := RenamedIds(Doc(id, href), d);
    RelatedDoc(id, href, Transformed(Doc(id, href), d), PluginStep(d, ids));
    RootNode(d, ids);
    HeadingNode(d, ids, id);
    LinkNode(d, ids, href);
  }

  /** A heading with a Cyrillic id and a link to it: both move to the transliteration. */
  lemma DocTransformed(d: Dialect, id: string)
    requires id != "" && HasCyrillic(d, id) && Transliterate(id) != ""
    ensures Transformed(Doc(id, "#" + id), d) == Doc(Transliterate(id), "#" + Transliterate(id))
  {
    assert RenamesId(d, "element", "h2", map["id" := id]);
    RenamedIdsDoc(d, id, "#" + id);
    assert ("#" + id)[1..] == id;
    TransformedDoc(d, id, "#" + id);
  }

  /** "#мир" on a heading "мир" becomes "#mir" under either copy of the plugin. */
  lemma RussianHeadingExample(d: Dialect)
    ensures Transformed(Doc("мир", "#мир"), d) == Doc("mir", "#mir")
  {
    LowerCaseExample();
    assert IsRussianLetter("мир"[0]);
    DocTransformed(d, "мир");
    assert "#" + "мир" == "#мир" && "#" + "mir" == "#mir";
  }

  /** A Latin id is left alone, and so is the link to it: pass 2 never runs. */
  lemma LatinHeadingExample(d: Dialect)
    ensures CollectIds(Doc("intro", "#intro"), d, map[]) == map[]
    ensures Transformed(Doc("intro", "#intro"), d) == Doc("intro", "#intro")
  {
    assert !HasCyrillicBlock("intro") && !HasRussianLetter("intro");
    RenamedIdsDoc(d, "intro", "#intro");
    TransformedDoc(d, "intro", "#intro");
  }

  /** The id map of a single renamed id. */
  lemma IdMapOfOne(id: string)
    ensures IdMapOf({id}) == map[id := Transliterate(id)]
  {
  }

  /** A page whose heading id is renamed records exactly that id. */
  lemma CollectIdsRenamedDoc(d: Dialect, id: string, href: string)
    requires RenamesId(d, "element", "h2", map["id" := id])
    ensures RenamedIds(Doc(id, href), d) == {id}
    ensures CollectIds(Doc(id, href), d, map[]) == map[id := Transliterate(id)]
  {
    RenamedIdsDoc(d, id, href);
    IdMapOfOne(id);
  }

  lemma HardSignFacts(d: Dialect)
    ensures Transliterate("ъ") == "" && RenamesId(d, "element", "h2", map["id" := "ъ"])
    ensures "#ъ"[1..] == "ъ"
  {
    assert "ъ"[1..] == "";
    assert IsRussianLetter("ъ"[0]);
  }

  /**
   * An id made only of a hard sign becomes empty; the map records the empty
   * id, which is falsy, so the link to the old id keeps its target.
   */
  lemma HardSignExample(d: Dialect)
    ensures CollectIds(Doc("ъ", "#ъ"), d, map[]) == map["ъ" := ""]
    ensures Transformed(Doc("ъ", "#ъ"), d) == Doc("", "#ъ")
  {
    HardSignFacts(d);
    CollectIdsRenamedDoc(d, "ъ", "#ъ");
    TransformedDoc(d, "ъ", "#ъ");
  }

  lemma UkrainianLetterFacts()
    ensures Transliterate("і") == "і" && RenamesId(CommonJs, "element", "h2", map["id" := "і"])
    ensures "#і"[1..] == "і" && "#" + "і" == "#і"
  {
    assert "і"[1..] == "";
    assert InCyrillicBlock("і"[0]);
  }

  /**
   * The Ukrainian 'і' (U+0456) is in the CommonJS block but not in the table:
   * the CommonJS copy records "і" -> "і" and runs pass 2, which changes nothing.
   */
  lemma UkrainianLetterCommonJsExample()
    ensures CollectIds(Doc("і", "#і"), CommonJs, map[]) == map["і" := "і"]
    ensures Transformed(Doc("і", "#і"), CommonJs) == Doc("і", "#і")
  {
    UkrainianLetterFacts();
    CollectIdsRenamedDoc(CommonJs, "і", "#і");
    TransformedDoc(CommonJs, "і", "#і");
  }

  /** The ES-module copy does not treat 'і' as Cyrillic at all. */
  lemma UkrainianLetterEsModuleExample()
    ensures CollectIds(Doc("і", "#і"), EsModule, map[]) == map[]
    ensures Transformed(Doc("і", "#і"), EsModule) == Doc("і", "#і")
  {
    assert !HasRussianLetter("і") by { assert "і"[1..] == ""; }
    RenamedIdsDoc(EsModule, "і", "#і");
    TransformedDoc(EsModule, "і", "#і");
  }

  /**
   * "МИР" and "мир" fold to the same id, so two headings that differed
   * only in case end up with equal ids.
   */
  lemma CaseCollisionExample(d: Dialect)
    ensures Transformed(Doc("МИР", "#МИР"), d) == Doc("mir", "#mir")
    ensures Transformed(Doc("мир", "#мир"), d) == Doc("mir", "#mir")
  {
    UpperCaseExample();
    assert IsRussianLetter("МИР"[0]);
    DocTransformed(d, "МИР");
    assert "#" + "МИР" == "#МИР" && "#" + "mir" == "#mir";
    RussianHeadingExample(d);
  }
}
