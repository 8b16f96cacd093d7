/** The `Charset` preset of both packages: a replaceable character set written
    as `<meta charset="C">`, `utf-8` unless another is passed. */
module CharsetPreset {

  import opened Wrappers
  import opened Text
  import CharsetElement

  datatype Charset = Charset(charset: string)

  /** The constructor: it writes what the live element writes for the same
      argument, `utf-8` when none is passed. */
  function New(charset: Option<string>): (c: Charset)
    ensures Render(c) == CharsetElement.Render(CharsetElement.New(charset))
    ensures charset.None? ==> Render(c) == "<meta charset=\"utf-8\">"
  {
    Charset(charset.GetOr(CharsetElement.Default))
  }

  /** `_compile`: the value verbatim between `<meta charset="` and `">`, the
      same text the live element writes for the same value. */
  function Render(c: Charset): (r: string)
    ensures Unwrap(r, "<meta charset=\"", "\">") == Some(c.charset)
    ensures r == CharsetElement.Render(CharsetElement.Charset(c.charset))
  {
    UnwrapWrap("<meta charset=\"", c.charset, "\">");
    "<meta charset=\"" + c.charset + "\">"
  }

  /** `replace`: afterwards the tag carries the new value, whatever it held. */
  function Replace(c: Charset, charset: string): (u: Charset)
    ensures Unwrap(Render(u), "<meta charset=\"", "\">") == Some(charset)
    ensures Render(u) == Render(New(Some(charset)))
  {
    Charset(charset)
  }

  /** Only the last replacement counts, even over the default. */
  lemma ReplaceLast(x: string, y: string)
    ensures Render(Replace(Replace(New(None), x), y)) == Render(New(Some(y)))
    ensures Render(Replace(New(None), x)) == Render(New(None)) <==> x == CharsetElement.Default
  {
    var r := Render(Replace(New(None), x));
    assert Unwrap(r, "<meta charset=\"", "\">") == Some(x);
    assert Unwrap(Render(New(None)), "<meta charset=\"", "\">") == Some(CharsetElement.Default);
  }
}
