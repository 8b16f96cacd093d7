/** The `Stylesheet` presets. The one in `presets` and the older one write a
    `LinkTag` with `rel="stylesheet"` and the href; the one in
    `class_presets` also passes its optional id. Each writes what the live
    `Stylesheet` element writes. */
module StylesheetPreset {

  import opened Wrappers
  import opened Text
  import opened Markup
  import opened Attrs
  import LinkElement
  import LinkTag
  import StylesheetElement

  /** `presets.Stylesheet` and the older preset of the same name. */
  datatype Stylesheet = Stylesheet(href: string)

  /** `class_presets.Stylesheet`. */
  datatype ClassStylesheet = ClassStylesheet(href: string, id: Option<string>)

  /** The link the id-less presets build. */
  function Link(s: Stylesheet): LinkTag.LinkTag
  {
    LinkTag.New("stylesheet", Some(s.href), None, None, None, None)
  }

  /** `_compile`: the live element's rendering without an id; it reads back as
      the stylesheet link when the href holds no double quote or `" >"`. */
  function Render(s: Stylesheet): (r: string)
    ensures r == StylesheetElement.Render(StylesheetElement.Stylesheet(s.href, None))
    ensures StylesheetElement.Clean(StylesheetElement.Stylesheet(s.href, None)) ==>
              LinkElement.Decode(r) == Some(LinkElement.Link("stylesheet", Some(s.href), None, None, None, None))
  {
    LinkTag.Render(Link(s))
  }

  /** `_compile` of the class preset: the live element's rendering with the
      same id; it reads back as the stylesheet link with that id. */
  function RenderClass(s: ClassStylesheet): (r: string)
    ensures r == StylesheetElement.Render(StylesheetElement.Stylesheet(s.href, s.id))
    ensures StylesheetElement.Clean(StylesheetElement.Stylesheet(s.href, s.id)) ==>
              LinkElement.Decode(r) == Some(LinkElement.Link("stylesheet", Some(s.href), None, None, None, s.id))
  {
    LinkTag.Render(LinkTag.New("stylesheet", Some(s.href), None, None, None, s.id))
  }

  /** The older preset returns the called link, which is its string: without
      an id the class preset writes the same. */
  lemma CalledLink(href: string)
    ensures LinkTag.Render(Link(Stylesheet(href))) == RenderClass(ClassStylesheet(href, None))
    ensures Render(Stylesheet(href)) == RenderClass(ClassStylesheet(href, None))
  {
  }
}
