/** The live `Stylesheet` element: a `Link` with `rel="stylesheet"`, the href
    and the optional id. Unlike `Link`, its key is the raw id, and only when the
    id is non-empty. */
module StylesheetElement {

  import opened Wrappers
  import opened Text
  import opened Markup
  import opened Attrs
  import LinkElement

  datatype Stylesheet = Stylesheet(href: string, id: Option<string>)

  /** `key`: the id itself when it is truthy (given and non-empty). */
  function Key(s: Stylesheet): (k: Option<string>)
    ensures k.Some? <==> s.id.Some? && s.id.value != ""
    ensures k.Some? ==> k.value == s.id.value
  {
    if s.id.Some? && s.id.value != "" then s.id else None
  }

  /** The link it delegates to. */
  function AsLink(s: Stylesheet): LinkElement.Link
  {
    LinkElement.Link("stylesheet", Some(s.href), None, None, None, s.id)
  }

  /** No value holds a double quote or `" >"`. */
  predicate Clean(s: Stylesheet)
  {
    IsValue(s.href) && NoOcc(s.href, " >") &&
    (s.id.Some? ==> IsValue(s.id.value) && NoOcc(s.id.value, " >"))
  }

  lemma CleanLink(s: Stylesheet)
    requires Clean(s)
    ensures QuoteFree(LinkElement.Fields(AsLink(s))) && SpaceGtFree(LinkElement.Fields(AsLink(s)))
  {
    var fs := LinkElement.Fields(AsLink(s));
    assert IsValue("stylesheet") && ' ' !in "stylesheet";
    NoSpaceNoOcc("stylesheet");
    forall i | 0 <= i < |fs| ensures FieldQuoteFree(fs[i]) && FieldSpaceGtFree(fs[i]) {
    }
  }

  /** `_compile`: the rendering of the link; it reads back as that link. */
  function Render(s: Stylesheet): (r: string)
    ensures Clean(s) ==> LinkElement.Decode(r) == Some(AsLink(s))
  {
    if Clean(s) then
      CleanLink(s);
      LinkElement.DecodeRender(AsLink(s));
      LinkElement.Render(AsLink(s))
    else LinkElement.Render(AsLink(s))
  }

  /** `id_=""`: no key, yet the link is written with `id=""`, because the link
      tests for None rather than truthiness. */
  lemma EmptyId(href: string)
    requires IsValue(href) && NoOcc(href, " >")
    ensures Key(Stylesheet(href, Some(""))) == None
    ensures LinkElement.Decode(Render(Stylesheet(href, Some("")))).value.id == Some("")
  {
    assert Clean(Stylesheet(href, Some("")));
  }

  /** With a non-empty id the stylesheet's key is the id, while the link it
      writes would be keyed by the whole `id="X" ` fragment. */
  lemma KeyUnlikeLink(href: string, id: string)
    requires id != ""
    ensures Key(Stylesheet(href, Some(id))) == Some(id)
    ensures LinkElement.Key(AsLink(Stylesheet(href, Some(id)))) == Some("id=\"" + id + "\" ")
    ensures Key(Stylesheet(href, Some(id))) != LinkElement.Key(AsLink(Stylesheet(href, Some(id))))
  {
    assert |"id=\"" + id + "\" "| > |id|;
  }
}
