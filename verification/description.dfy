/** The live `Description` element: `<meta name="description" content="D">`,
    which is the `name`/`content` meta tag without the trailing space. */
module DescriptionElement {

  import opened Wrappers
  import opened Text
  import opened Markup
  import MetaElement

  datatype Description = Description(text: string)

  /** The meta element whose attributes the tag carries. */
  function AsMeta(d: Description): MetaElement.Meta
  {
    MetaElement.Meta(MetaElement.Name, "description", Some(d.text), None)
  }

  lemma Spelling(d: Description)
    ensures "<meta name=\"description\" content=\"" + d.text + "\">" == MetaElement.TightRender(AsMeta(d))
  {
    MetaElement.ContentOnlyText(MetaElement.Name, "description", d.text);
    Prefix();
  }

  lemma Prefix()
    ensures "<meta " + MetaElement.KindAttr(MetaElement.Name) + "=\"" + "description" + "\" content=\""
            == "<meta name=\"description\" content=\""
  {
  }

  /** `_compile`: the attributes of `AsMeta(d)` separated by single spaces, so
      the tag reads back as that meta element whenever the text holds no
      double quote. */
  function Render(d: Description): (r: string)
    ensures r == MetaElement.TightRender(AsMeta(d))
    ensures IsValue(d.text) ==> MetaElement.Decode(r) == Some(AsMeta(d))
  {
    Spelling(d);
    assert IsValue("description");
    if IsValue(d.text) then
      MetaElement.ContentOnly(MetaElement.Name, "description", d.text);
      "<meta name=\"description\" content=\"" + d.text + "\">"
    else "<meta name=\"description\" content=\"" + d.text + "\">"
  }
}
