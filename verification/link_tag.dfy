/** `LinkTag` of the `tags` package: the constructor stores each attribute as a
    ready-written fragment and the writer concatenates them inside `<link ` ...
    `>`, then rewrites every `" >"` to `">"`. It writes exactly what the live
    `Link` element writes. */
module LinkTag {

  import opened Wrappers
  import opened Text
  import opened Markup
  import opened Attrs
  import LinkElement
  import LinkLines
  import Lines

  /** The six stored fragments; an absent attribute is stored as `""`. */
  datatype LinkTag = LinkTag(rel: string, href: string, sizes: string,
                             typ: string, hreflang: string, id: string)

  /** The element with the same attributes. */
  function Element(rel: string, href: Option<string>, sizes: Option<string>, typ: Option<string>,
                   hreflang: Option<string>, id: Option<string>): LinkElement.Link
  {
    LinkElement.Link(rel, href, sizes, typ, hreflang, id)
  }

  /** The constructor. The tag it builds writes what the live element with the
      same attributes writes, and reads back as that element when no value
      holds a double quote or `" >"`. */
  function New(rel: string, href: Option<string>, sizes: Option<string>, typ: Option<string>,
               hreflang: Option<string>, id: Option<string>): (t: LinkTag)
    ensures Render(t) == LinkElement.Render(Element(rel, href, sizes, typ, hreflang, id))
    ensures var l := Element(rel, href, sizes, typ, hreflang, id);
            QuoteFree(LinkElement.Fields(l)) && SpaceGtFree(LinkElement.Fields(l)) ==>
              LinkElement.Decode(Render(t)) == Some(l)
  {
    var t := LinkTag(Fragment("rel", Some(rel)), Fragment("href", href), Fragment("sizes", sizes),
                     Fragment("type", typ), Fragment("hreflang", hreflang), Fragment("id", id));
    var l := Element(rel, href, sizes, typ, hreflang, id);
    RawAsElement(l);
    ReadsBack(l);
    t
  }

  lemma ReadsBack(l: LinkElement.Link)
    ensures QuoteFree(LinkElement.Fields(l)) && SpaceGtFree(LinkElement.Fields(l)) ==>
              LinkElement.Decode(LinkElement.Render(l)) == Some(l)
  {
    if QuoteFree(LinkElement.Fields(l)) && SpaceGtFree(LinkElement.Fields(l)) {
      LinkElement.DecodeRender(l);
    }
  }

  /** The stored fragments written in order, before the rewrite. */
  function Raw(t: LinkTag): string
  {
    "<link " + t.rel + t.href + t.sizes + t.typ + t.hreflang + t.id + ">"
  }

  /** `_compile`: the raw tag with every `" >"` rewritten to `">"`. */
  function Render(t: LinkTag): string
  {
    Collapse(Raw(t))
  }

  /** The fragments of an element's attributes, stored by the constructor,
      concatenate to the element's raw tag. */
  lemma RawAsElement(l: LinkElement.Link)
    ensures Raw(LinkTag(Fragment("rel", Some(l.rel)), Fragment("href", l.href), Fragment("sizes", l.sizes),
                        Fragment("type", l.typ), Fragment("hreflang", l.hreflang), Fragment("id", l.id)))
            == LinkElement.Raw(l)
  {
    var a := Fragment("rel", Some(l.rel));
    var b := Fragment("href", l.href);
    var c := Fragment("sizes", l.sizes);
    var d := Fragment("type", l.typ);
    var e := Fragment("hreflang", l.hreflang);
    var f := Fragment("id", l.id);
    FragmentsSpaced(l);
    Regroup("<link ", a, b, c, d, e, f, ">");
  }

  lemma Regroup(open: string, a: string, b: string, c: string, d: string, e: string, f: string, close: string)
    ensures open + a + b + c + d + e + f + close == open + (a + (b + (c + (d + (e + f))))) + close
  {
  }

  /** The six fragments together are the spaced attributes of the element. */
  lemma FragmentsSpaced(l: LinkElement.Link)
    ensures Fragment("rel", Some(l.rel)) + (Fragment("href", l.href) + (Fragment("sizes", l.sizes)
            + (Fragment("type", l.typ) + (Fragment("hreflang", l.hreflang) + Fragment("id", l.id)))))
            == Spaced(LinkElement.Attributes(l))
  {
    var a := Opt("rel", Some(l.rel));
    var b := Opt("href", l.href);
    var c := Opt("sizes", l.sizes);
    var d := Opt("type", l.typ);
    var e := Opt("hreflang", l.hreflang);
    var f := Opt("id", l.id);
    AttributesSplit(l);
    SpacedConcat(a, b + (c + (d + (e + f))));
    SpacedConcat(b, c + (d + (e + f)));
    SpacedConcat(c, d + (e + f));
    SpacedConcat(d, e + f);
    SpacedConcat(e, f);
    FragmentSpaced("rel", Some(l.rel));
    FragmentSpaced("href", l.href);
    FragmentSpaced("sizes", l.sizes);
    FragmentSpaced("type", l.typ);
    FragmentSpaced("hreflang", l.hreflang);
    FragmentSpaced("id", l.id);
  }

  /** The element's attributes, slot by slot. */
  lemma AttributesSplit(l: LinkElement.Link)
    ensures LinkElement.Attributes(l) == Opt("rel", Some(l.rel)) + (Opt("href", l.href) + (Opt("sizes", l.sizes)
                                         + (Opt("type", l.typ) + (Opt("hreflang", l.hreflang) + Opt("id", l.id)))))
  {
    var ly, fs := LinkElement.Layout(), LinkElement.Fields(l);
    EncodeSix(ly, fs);
    assert EncodeOne(ly[0], fs[0]) == Opt("rel", Some(l.rel));
    assert EncodeOne(ly[1], fs[1]) == Opt("href", l.href);
    assert EncodeOne(ly[2], fs[2]) == Opt("sizes", l.sizes);
    assert EncodeOne(ly[3], fs[3]) == Opt("type", l.typ);
    assert EncodeOne(ly[4], fs[4]) == Opt("hreflang", l.hreflang);
    assert EncodeOne(ly[5], fs[5]) == Opt("id", l.id);
  }

  /** `rel` is always written, so a tag given only `rel` is `<link rel="R">`. */
  lemma RelOnly(rel: string)
    requires IsValue(rel) && NoOcc(rel, " >")
    ensures Render(New(rel, None, None, None, None, None)) == "<link rel=\"" + rel + "\">"
  {
    RelOnlyElement(rel);
  }

  lemma RelOnlyElement(rel: string)
    requires IsValue(rel) && NoOcc(rel, " >")
    ensures LinkElement.Render(Element(rel, None, None, None, None, None)) == "<link rel=\"" + rel + "\">"
  {
    var l := Element(rel, None, None, None, None, None);
    RelOnlyClean(l);
    LinkElement.RelOnly(rel);
    assert Tight([Pair("rel", rel)]) == "rel=\"" + rel + "\"";
    Regroup3("<link ", "rel=\"", rel, "\"", ">");
    assert "<link " + "rel=\"" == "<link rel=\"" && "\"" + ">" == "\">";
  }

  lemma RelOnlyClean(l: LinkElement.Link)
    requires l.href == l.sizes == l.typ == l.hreflang == l.id == None
    requires IsValue(l.rel) && NoOcc(l.rel, " >")
    ensures QuoteFree(LinkElement.Fields(l)) && SpaceGtFree(LinkElement.Fields(l))
  {
    var fs := LinkElement.Fields(l);
    forall i | 0 <= i < |fs| ensures FieldQuoteFree(fs[i]) && FieldSpaceGtFree(fs[i]) {
      if i == 0 {
        assert fs[i] == Given(l.rel);
      }
    }
  }

  // ---------------------------------------------------------------------------
  // Presets made of several optional tags

  /** The tag built with the attributes of `l`. */
  function Of(l: LinkElement.Link): (t: LinkTag)
    ensures Render(t) == LinkElement.Render(l)
  {
    New(l.rel, l.href, l.sizes, l.typ, l.hreflang, l.id)
  }

  /** A preset slot holding a tag built from a live-element slot. */
  function Wrap(slots: seq<Option<LinkElement.Link>>): (tags: seq<Option<LinkTag>>)
    ensures |tags| == |slots|
    ensures forall i :: 0 <= i < |slots| ==> (tags[i].Some? <==> slots[i].Some?)
    ensures forall i :: 0 <= i < |slots| ==> tags[i].Some? ==> tags[i].value == Of(slots[i].value)
  {
    seq(|slots|, i requires 0 <= i < |slots| => if slots[i].Some? then Some(Of(slots[i].value)) else None)
  }

  /** The renderings of the set slots, in slot order. */
  function Rendered(tags: seq<Option<LinkTag>>): (ls: seq<string>)
    ensures |ls| <= |tags|
  {
    Lines.Kept(Texts(tags))
  }

  /** Each slot's rendering, if it is set. */
  function Texts(tags: seq<Option<LinkTag>>): (ts: seq<Option<string>>)
    ensures |ts| == |tags|
  {
    seq(|tags|, i requires 0 <= i < |tags| => if tags[i].Some? then Some(Render(tags[i].value)) else None)
  }

  /** `_compile` of a preset: the rendered tags of the set slots, one per
      line, or `""`. */
  function Output(tags: seq<Option<LinkTag>>): string
  {
    Lines.Compile(Rendered(tags))
  }

  lemma {:induction false} RenderedAsElement(slots: seq<Option<LinkElement.Link>>)
    ensures Rendered(Wrap(slots)) == LinkLines.Renders(LinkLines.Present(slots))
  {
    if |slots| > 0 {
      assert Wrap(slots)[1..] == Wrap(slots[1..]);
      var ts := Texts(Wrap(slots));
      assert ts[1..] == Texts(Wrap(slots[1..]));
      assert Rendered(Wrap(slots)) == (if ts[0].Some? then [ts[0].value] else []) + Rendered(Wrap(slots[1..]));
      RenderedAsElement(slots[1..]);
      if slots[0].Some? {
        var ls := LinkLines.Present(slots);
        assert ls == [slots[0].value] + LinkLines.Present(slots[1..]);
        assert ls[1..] == LinkLines.Present(slots[1..]);
      }
    }
  }

  /** A preset built from `LinkTag`s writes exactly what the live element with
      the same slots writes. */
  lemma OutputAsElement(slots: seq<Option<LinkElement.Link>>)
    ensures Output(Wrap(slots)) == LinkLines.Output(slots)
  {
    RenderedAsElement(slots);
  }
}
