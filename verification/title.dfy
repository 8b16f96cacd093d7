/** The live `Title` element: `<title>`, the text verbatim, `</title>`. */
module TitleElement {

  import opened Wrappers
  import opened Text

  /** The raw text, which the registry copies into its `title`. */
  datatype Title = Title(text: string)

  /** `_compile`: the text between the two tags, with no escaping; the
      `disabled` flag of the class plays no part. */
  function Render(t: Title): (r: string)
    ensures Unwrap(r, "<title>", "</title>") == Some(t.text)
  {
    UnwrapWrap("<title>", t.text, "</title>");
    "<title>" + t.text + "</title>"
  }

  /** Distinct titles render differently. */
  lemma RenderInjective(a: Title, b: Title)
    requires Render(a) == Render(b)
    ensures a == b
  {
  }
}
