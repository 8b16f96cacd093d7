/** The live `Charset` element: `<meta charset="C">`, by default `utf-8`. */
module CharsetElement {

  import opened Wrappers
  import opened Text

  datatype Charset = Charset(charset: string)

  const Default := "utf-8"

  /** The constructor; an omitted argument means `utf-8`. */
  function New(charset: Option<string>): (c: Charset)
    ensures charset.None? ==> c.charset == "utf-8"
    ensures charset.Some? ==> c.charset == charset.value
  {
    Charset(charset.GetOr(Default))
  }

  /** `_compile`: the value verbatim inside `<meta charset="` ... `">`, with no
      space before `>`. */
  function Render(c: Charset): (r: string)
    ensures Unwrap(r, "<meta charset=\"", "\">") == Some(c.charset)
  {
    UnwrapWrap("<meta charset=\"", c.charset, "\">");
    "<meta charset=\"" + c.charset + "\">"
  }
}
