/** The live `OpenGraphWebsite` element: `og:type` (`website`) and `og:locale`
    meta tags, always, then `og:site_name`, `og:title`, `og:description`,
    `og:image`, `og:image:alt` and `og:url`, each when given; every tag uses
    `property=`. */
module OpenGraphWebsiteElement {

  import opened Wrappers
  import MetaElement
  import MetaLines

  datatype OpenGraphWebsite = OpenGraphWebsite(locale: string, siteName: Option<string>, title: Option<string>,
                                               description: Option<string>, url: Option<string>,
                                               image: Option<string>, imageAlt: Option<string>)

  /** The constructor; the locale defaults to `en_US`. */
  function New(locale: Option<string>, siteName: Option<string>, title: Option<string>, description: Option<string>,
               url: Option<string>, image: Option<string>, imageAlt: Option<string>): (o: OpenGraphWebsite)
    ensures locale.None? ==> o.locale == "en_US"
    ensures locale.Some? ==> o.locale == locale.value
    ensures o.siteName == siteName && o.title == title && o.description == description
    ensures o.url == url && o.image == image && o.imageAlt == imageAlt
  {
    OpenGraphWebsite(locale.GetOr("en_US"), siteName, title, description, url, image, imageAlt)
  }

  /** The `property` of each slot's tag, in `_order`. */
  const Names: seq<string> := ["og:type", "og:locale", "og:site_name", "og:title",
                               "og:description", "og:image", "og:image:alt", "og:url"]

  function Values(o: OpenGraphWebsite): seq<Option<string>>
  {
    [Some("website"), Some(o.locale), o.siteName, o.title, o.description, o.image, o.imageAlt, o.url]
  }

  function Order(o: OpenGraphWebsite): (slots: seq<Option<MetaElement.Meta>>)
    ensures |slots| == 8
  {
    MetaLines.Slots(MetaElement.Property, Names, Values(o))
  }

  /** `_compile`. */
  function Compile(o: OpenGraphWebsite): string
  {
    MetaLines.Output(MetaLines.Spaced, Order(o))
  }

  lemma NamesGood()
    ensures forall i :: 0 <= i < |Names| ==> MetaLines.Value(Names[i])
  {
    assert MetaLines.Value(Names[0]);
    assert MetaLines.Value(Names[1]);
    assert MetaLines.Value(Names[2]);
    assert MetaLines.Value(Names[3]);
    assert MetaLines.Value(Names[4]);
    assert MetaLines.Value(Names[5]);
    assert MetaLines.Value(Names[6]);
    assert MetaLines.Value(Names[7]);
  }

  /** The output reads back as the type and locale tags followed by one tag per
      given field, in the fixed order. */
  lemma CompileReads(o: OpenGraphWebsite)
    requires forall i :: 0 <= i < 8 ==> MetaLines.OptValue(Values(o)[i])
    ensures MetaLines.Read(Compile(o)) == Some(MetaLines.Picked(MetaElement.Property, Names, Values(o)))
  {
    NamesGood();
    MetaLines.ReadSlots(MetaLines.Spaced, MetaElement.Property, Names, Values(o));
  }

  /** Those tags always start with `og:type` and `og:locale`. */
  lemma TypeAndLocaleFirst(o: OpenGraphWebsite)
    ensures |MetaLines.Picked(MetaElement.Property, Names, Values(o))| >= 2
    ensures MetaLines.Picked(MetaElement.Property, Names, Values(o))[..2]
            == [MetaElement.Meta(MetaElement.Property, "og:type", Some("website"), None),
                MetaElement.Meta(MetaElement.Property, "og:locale", Some(o.locale), None)]
  {
    var vs := Values(o);
    var k := MetaElement.Property;
    var rest := MetaLines.Picked(k, Names[2..], vs[2..]);
    assert Names[1..][1..] == Names[2..] && vs[1..][1..] == vs[2..];
    assert MetaLines.Picked(k, Names[1..], vs[1..]) == [MetaElement.Meta(k, "og:locale", Some(o.locale), None)] + rest;
  }

  /** The type tag is always written, so the output is never empty. */
  lemma NeverEmpty(o: OpenGraphWebsite)
    ensures Compile(o) != ""
  {
    MetaLines.SlotsEmpty(MetaLines.Spaced, MetaElement.Property, Names, Values(o));
    assert Values(o)[0].Some?;
  }
}
