/**
 A worked page: `<main><h1>T</h1><p>Body</p></main>` with no `<title>` and no
 `<meta>` tags, taken through the extraction rules of web_scraper_api.py:63-78.
 */
module Samples {
  import opened Wrappers
  import opened Text
  import opened Html
  import opened Scraper

  /** `<h1>T</h1>` */
  function Heading(): Node {
    Element("h1", map[], [TextNode("T")])
  }

  /** `<p>Body</p>` */
  function Paragraph(): Node {
    Element("p", map[], [TextNode("Body")])
  }

  /** `<main><h1>T</h1><p>Body</p></main>` */
  function MainBlock(): Node {
    Element("main", map[], [Heading(), Paragraph()])
  }

  /** The page has no title, one heading "T", and the content "T" and "Body" on two lines. */
  lemma {:induction false} MainBlockExtraction()
    ensures Title([MainBlock()]) == ""
    ensures Headers([MainBlock()]) == ["T"]
    ensures Content([MainBlock()]) == "T\nBody"
    ensures MetaContent([MainBlock()], "description") == ""
  {
    NoTitle();
    OneHeading();
    ContentOfMain();
    NoMeta("description");
  }

  lemma {:induction false} NoTitle()
    ensures Title([MainBlock()]) == ""
  {
    assert Find([TextNode("T")], TitleQuery) == None;
    assert Find([Heading()], TitleQuery) == None;
    assert Find([TextNode("Body")], TitleQuery) == None;
    assert Find([Paragraph()], TitleQuery) == None;
    assert MainBlock().children[1..] == [Paragraph()];
    assert Find(MainBlock().children, TitleQuery) == None;
  }

  lemma {:induction false} NoMeta(name: string)
    ensures MetaContent([MainBlock()], name) == ""
  {
    assert Find([TextNode("T")], MetaQuery(name)) == None;
    assert Find([Heading()], MetaQuery(name)) == None;
    assert Find([TextNode("Body")], MetaQuery(name)) == None;
    assert Find([Paragraph()], MetaQuery(name)) == None;
    assert MainBlock().children[1..] == [Paragraph()];
    assert Find(MainBlock().children, MetaQuery(name)) == None;
    assert !Matches(MetaQuery(name), MainBlock()) by {
      assert MainBlock().name != "meta";
    }
    assert Find([MainBlock()], MetaQuery(name)) == None;
  }

  lemma {:induction false} OneHeading()
    ensures Headers([MainBlock()]) == ["T"]
  {
    assert FindAll([TextNode("T")], HeadingQuery) == [];
    assert FindAll([Heading()], HeadingQuery) == [Heading()];
    assert FindAll([TextNode("Body")], HeadingQuery) == [];
    assert FindAll([Paragraph()], HeadingQuery) == [];
    assert MainBlock().children[1..] == [Paragraph()];
    assert FindAll(MainBlock().children, HeadingQuery) == [Heading()];
    assert FindAll([MainBlock()], HeadingQuery) == [Heading()];
    assert Strings(Heading().children) == ["T"];
    assert IsStripped("T");
    NonBlankOfClean(["T"]);
  }

  lemma {:induction false} ContentOfMain()
    ensures Content([MainBlock()]) == "T\nBody"
  {
    MainFound();
    MainText();
  }

  lemma {:induction false} MainFound()
    ensures Find([MainBlock()], AnyOf(["main"])) == Some(MainBlock())
  {
    assert Matches(AnyOf(["main"]), MainBlock());
  }

  lemma {:induction false} MainText()
    ensures GetText(MainBlock(), "\n") == "T\nBody"
  {
    MainStrings();
    JoinedLines();
  }

  lemma {:induction false} JoinedLines()
    ensures Join("\n", ["T", "Body"]) == "T\nBody"
  {
    assert ["T", "Body"][1..] == ["Body"];
  }

  lemma {:induction false} MainStrings()
    ensures NonBlank(Strings(MainBlock().children)) == ["T", "Body"]
  {
    assert Strings([TextNode("T")]) == ["T"];
    assert Strings([TextNode("Body")]) == ["Body"];
    assert Strings([Paragraph()]) == ["Body"];
    assert MainBlock().children[1..] == [Paragraph()];
    assert Strings(MainBlock().children) == ["T", "Body"];
    assert IsStripped("T") && IsStripped("Body");
    NonBlankOfClean(["T", "Body"]);
  }

  /** `<p><script>x</script>y</p>`: the script's text is not part of `get_text`. */
  function ScriptedParagraph(): Node {
    Element("p", map[], [Element("script", map[], [TextNode("x")]), TextNode("y")])
  }

  lemma {:induction false} ScriptTextSkipped()
    ensures GetText(ScriptedParagraph(), "\n") == "y"
  {
    assert Strings([Element("script", map[], [TextNode("x")])]) == [];
    assert Strings([TextNode("y")]) == ["y"];
    assert ScriptedParagraph().children[1..] == [TextNode("y")];
    assert Strings(ScriptedParagraph().children) == ["y"];
    assert IsStripped("y");
    NonBlankOfClean(["y"]);
  }
}
