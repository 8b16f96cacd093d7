/** The live `Google` element: an optional `googlebot` meta tag and an optional
    `google`/`notranslate` meta tag, one per line. The `no_sitelinks_search_box`
    flag is stored on an attribute outside the render order, so it never
    reaches the output. */
module GoogleElement {

  import opened Wrappers
  import MetaElement
  import MetaLines

  /** The three slots of `_order` plus the stray `sitelinks` attribute. */
  datatype Google = Google(googlebot: Option<MetaElement.Meta>,
                           sitelinksSearchBox: Option<MetaElement.Meta>,
                           noTranslate: Option<MetaElement.Meta>,
                           sitelinks: Option<MetaElement.Meta>)

  function NoTranslateMeta(): MetaElement.Meta
  {
    MetaElement.Meta(MetaElement.Name, "google", Some("notranslate"), None)
  }

  /** The constructor. The `_sitelinkssearchbox` slot is never assigned; the
      flag sets `sitelinks` instead. */
  function New(googlebot: Option<string>, noSitelinksSearchBox: bool, noTranslate: bool): (g: Google)
    ensures g.sitelinksSearchBox.None?
    ensures g.sitelinks.Some? <==> noSitelinksSearchBox
    ensures g.googlebot == MetaLines.Line(MetaElement.Name, "googlebot", googlebot)
    ensures g.noTranslate == if noTranslate then Some(NoTranslateMeta()) else None
  {
    Google(MetaLines.Line(MetaElement.Name, "googlebot", googlebot),
           None,
           MetaLines.Line(MetaElement.Name, "google", if noTranslate then Some("notranslate") else None),
           MetaLines.Line(MetaElement.Name, "google", if noSitelinksSearchBox then Some("nositelinkssearchbox") else None))
  }

  /** The slots in `_order`. */
  function Order(g: Google): seq<Option<MetaElement.Meta>>
  {
    [g.googlebot, g.sitelinksSearchBox, g.noTranslate]
  }

  /** `compile`. */
  function Compile(g: Google): string
  {
    MetaLines.Output(MetaLines.Spaced, Order(g))
  }

  /** What `Read` should give back: the googlebot tag, then notranslate. */
  function Expected(googlebot: Option<string>, noTranslate: bool): seq<MetaElement.Meta>
  {
    MetaLines.Listed(MetaLines.Line(MetaElement.Name, "googlebot", googlebot))
    + (if noTranslate then [NoTranslateMeta()] else [])
  }

  lemma SlotsGood(googlebot: Option<string>, noSitelinksSearchBox: bool, noTranslate: bool)
    requires MetaLines.OptValue(googlebot)
    ensures MetaLines.AllGood(Order(New(googlebot, noSitelinksSearchBox, noTranslate)))
  {
    assert MetaLines.Value("googlebot") && MetaLines.Value("google") && MetaLines.Value("notranslate");
  }

  lemma SlotsPresent(googlebot: Option<string>, noSitelinksSearchBox: bool, noTranslate: bool)
    ensures MetaLines.Present(Order(New(googlebot, noSitelinksSearchBox, noTranslate))) == Expected(googlebot, noTranslate)
  {
    var slots := Order(New(googlebot, noSitelinksSearchBox, noTranslate));
    assert slots == [slots[0]] + ([slots[1]] + ([slots[2]] + []));
    MetaLines.PresentCons(slots[2], []);
    MetaLines.PresentCons(slots[1], [slots[2]]);
    MetaLines.PresentCons(slots[0], [slots[1], slots[2]]);
  }

  /** The output reads back as the googlebot tag, if requested, followed by the
      notranslate tag, if requested. */
  lemma CompileReads(googlebot: Option<string>, noSitelinksSearchBox: bool, noTranslate: bool)
    requires MetaLines.OptValue(googlebot)
    ensures MetaLines.Read(Compile(New(googlebot, noSitelinksSearchBox, noTranslate)))
            == Some(Expected(googlebot, noTranslate))
  {
    SlotsGood(googlebot, noSitelinksSearchBox, noTranslate);
    SlotsPresent(googlebot, noSitelinksSearchBox, noTranslate);
    MetaLines.ReadOutput(MetaLines.Spaced, Order(New(googlebot, noSitelinksSearchBox, noTranslate)));
  }

  /** The sitelinks flag changes nothing in the output. */
  lemma SitelinksIgnored(googlebot: Option<string>, noTranslate: bool)
    ensures Compile(New(googlebot, true, noTranslate)) == Compile(New(googlebot, false, noTranslate))
  {
    assert Order(New(googlebot, true, noTranslate)) == Order(New(googlebot, false, noTranslate));
  }

  /** `Google()`, or one with only the sitelinks flag, renders `""`; anything
      else renders something. */
  lemma EmptyIff(googlebot: Option<string>, noSitelinksSearchBox: bool, noTranslate: bool)
    ensures Compile(New(googlebot, noSitelinksSearchBox, noTranslate)) == "" <==> googlebot.None? && !noTranslate
  {
    var slots := Order(New(googlebot, noSitelinksSearchBox, noTranslate));
    MetaLines.OutputEmpty(MetaLines.Spaced, slots);
    if googlebot.Some? {
      assert slots[0].Some?;
    }
    if noTranslate {
      assert slots[2].Some?;
    }
  }
}
