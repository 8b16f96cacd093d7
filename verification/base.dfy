/** The live `Base` element: `<base href="H">`. */
module BaseElement {

  import opened Wrappers
  import opened Text

  datatype Base = Base(href: string)

  /** `_compile`: the href verbatim inside `<base href="` ... `">`. */
  function Render(b: Base): (r: string)
    ensures Unwrap(r, "<base href=\"", "\">") == Some(b.href)
  {
    UnwrapWrap("<base href=\"", b.href, "\">");
    "<base href=\"" + b.href + "\">"
  }
}
