/** The live `Keywords` element: a list of keywords built from a
    comma-separated string (split on `,` with no stripping) followed by a list,
    rendered as `<meta name="keywords" content="k1, k2">`. */
module KeywordsElement {

  import opened Wrappers
  import opened Text
  import opened Markup
  import MetaElement

  datatype Keywords = Keywords(items: seq<string>)

  /** The constructor: the string split at commas when given, then the items of
      `from_list` appended. */
  function New(fromString: Option<string>, fromList: Option<seq<string>>): (k: Keywords)
    ensures fromString.None? && fromList.None? ==> k.items == []
    ensures |k.items| == (if fromString.Some? then Count(fromString.value, ',') + 1 else 0) + |fromList.GetOr([])|
    ensures fromString.Some? ==> Join(k.items[..Count(fromString.value, ',') + 1], ",") == fromString.value
    ensures k.items[|k.items| - |fromList.GetOr([])|..] == fromList.GetOr([])
  {
    var head := if fromString.Some? then Split(fromString.value, ',') else [];
    var items := head + fromList.GetOr([]);
    assert items[..|head|] == head;
    Keywords(items)
  }

  /** The content attribute: the keywords joined by `", "`. */
  function Content(k: Keywords): string
  {
    Join(k.items, ", ")
  }

  /** The meta element whose attributes the tag carries. */
  function AsMeta(k: Keywords): MetaElement.Meta
  {
    MetaElement.Meta(MetaElement.Name, "keywords", Some(Content(k)), None)
  }

  lemma Spelling(k: Keywords)
    ensures "<meta name=\"keywords\" content=\"" + Content(k) + "\">" == MetaElement.TightRender(AsMeta(k))
  {
    MetaElement.ContentOnlyText(MetaElement.Name, "keywords", Content(k));
    Prefix();
  }

  lemma Prefix()
    ensures "<meta " + MetaElement.KindAttr(MetaElement.Name) + "=\"" + "keywords" + "\" content=\""
            == "<meta name=\"keywords\" content=\""
  {
  }

  /** `_compile`: the joined keywords as the content of the keywords meta tag,
      without a trailing space; the tag reads back as that meta element when
      the keywords hold no double quote. */
  function Render(k: Keywords): (r: string)
    ensures Unwrap(r, "<meta name=\"keywords\" content=\"", "\">") == Some(Content(k))
    ensures r == MetaElement.TightRender(AsMeta(k))
    ensures IsValue(Content(k)) ==> MetaElement.Decode(r) == Some(AsMeta(k))
  {
    var c := Content(k);
    Spelling(k);
    UnwrapWrap("<meta name=\"keywords\" content=\"", c, "\">");
    assert IsValue("keywords");
    if IsValue(c) then
      MetaElement.ContentOnly(MetaElement.Name, "keywords", c);
      "<meta name=\"keywords\" content=\"" + c + "\">"
    else "<meta name=\"keywords\" content=\"" + c + "\">"
  }

  /** No stripping: a comma-joined list of keywords without commas comes back
      item for item, surrounding spaces included. */
  lemma FromStringJoin(ks: seq<string>)
    requires |ks| > 0
    requires forall i :: 0 <= i < |ks| ==> ',' !in ks[i]
    ensures New(Some(Join(ks, ",")), None).items == ks
  {
    SplitJoin(ks, ',');
    assert Split(Join(ks, ","), ',') + [] == ks;
  }
}
