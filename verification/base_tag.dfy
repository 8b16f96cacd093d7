/** `BaseTag` of the `tags` package: a mutable `href` written as
    `<base href="H">`, exactly like the live `Base` element. */
module BaseTag {

  import opened Wrappers
  import opened Text
  import BaseElement

  datatype BaseTag = BaseTag(href: string)

  /** `_compile`: the href verbatim, as the live element writes it. */
  function Render(b: BaseTag): (r: string)
    ensures Unwrap(r, "<base href=\"", "\">") == Some(b.href)
    ensures r == BaseElement.Render(BaseElement.Base(b.href))
  {
    UnwrapWrap("<base href=\"", b.href, "\">");
    "<base href=\"" + b.href + "\">"
  }

  /** `replace`: the tag then writes the new href, whatever it held before. */
  function Replace(b: BaseTag, href: string): (u: BaseTag)
    ensures Unwrap(Render(u), "<base href=\"", "\">") == Some(href)
  {
    BaseTag(href)
  }

  /** Only the last replacement counts. */
  lemma ReplaceTwice(b: BaseTag, x: string, y: string)
    ensures Render(Replace(Replace(b, x), y)) == Render(Replace(b, y))
    ensures Replace(Replace(b, x), y) == Replace(b, y)
  {
  }
}
