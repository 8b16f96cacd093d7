/** The `Favicon` preset: the live element's reference table and truthiness
    test, with each icon built as a `LinkTag`. */
module FaviconPreset {

  import opened Wrappers
  import LinkTag
  import LinkLines
  import FaviconElement

  /** The attributes the constructor sets: a tag per truthy href, carrying its
      entry's `rel`, `sizes` and `type`. */
  function Tags(hrefs: FaviconElement.Hrefs): (tags: seq<Option<LinkTag.LinkTag>>)
    ensures |tags| == 21
    ensures forall i :: 0 <= i < 21 ==> (tags[i].Some? <==> LinkLines.Truthy(hrefs[i]))
  {
    SlotsTruthy(hrefs);
    LinkTag.Wrap(LinkLines.Slots(FaviconElement.Table, hrefs))
  }

  lemma SlotsTruthy(hrefs: FaviconElement.Hrefs)
    ensures forall i :: 0 <= i < 21 ==>
              (LinkLines.Slots(FaviconElement.Table, hrefs)[i].Some? <==> LinkLines.Truthy(hrefs[i]))
  {
  }

  /** `_compile`: the preset writes what the live element writes; the output
      is empty exactly when no href is truthy. */
  function Compile(hrefs: FaviconElement.Hrefs): (r: string)
    ensures r == FaviconElement.Compile(FaviconElement.Favicon(hrefs))
    ensures r == "" <==> forall i :: 0 <= i < 21 ==> !LinkLines.Truthy(hrefs[i])
  {
    LinkTag.OutputAsElement(LinkLines.Slots(FaviconElement.Table, hrefs));
    FaviconElement.EmptyIff(FaviconElement.Favicon(hrefs));
    LinkTag.Output(Tags(hrefs))
  }

  /** The output reads back as one link per truthy href, in table order. */
  lemma CompileReads(hrefs: FaviconElement.Hrefs)
    requires forall i :: 0 <= i < 21 ==> LinkLines.OptPlain(hrefs[i])
    ensures LinkLines.Read(Compile(hrefs)) == Some(LinkLines.Picked(FaviconElement.Table, hrefs))
  {
    FaviconElement.CompileReads(FaviconElement.Favicon(hrefs));
  }
}
