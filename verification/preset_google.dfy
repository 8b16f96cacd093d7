/** The `Google` preset, in both the `presets` and the `class_presets`
    packages: the same slots as the live element, each built as a `MetaTag`.
    As in the live element, `no_sitelinks_search_box` sets an attribute that
    `_order` never names. */
module GooglePreset {

  import opened Wrappers
  import MetaTag
  import MetaLines
  import GoogleElement

  /** The attributes `_order` names, as tags. */
  function Tags(g: GoogleElement.Google): (tags: seq<Option<MetaTag.MetaTag>>)
    ensures |tags| == 3
    ensures tags[1].None? <==> g.sitelinksSearchBox.None?
  {
    MetaTag.Wrap(GoogleElement.Order(g))
  }

  /** `_compile`: the preset writes what the live element writes. */
  function Compile(g: GoogleElement.Google): (r: string)
    ensures r == GoogleElement.Compile(g)
  {
    MetaTag.OutputAsElement(GoogleElement.Order(g));
    MetaTag.Output(Tags(g))
  }

  /** The preset built from its constructor's arguments writes the googlebot
      tag and then the notranslate tag, each when asked for. */
  lemma CompileReads(googlebot: Option<string>, noSitelinksSearchBox: bool, noTranslate: bool)
    requires MetaLines.OptValue(googlebot)
    ensures MetaLines.Read(Compile(GoogleElement.New(googlebot, noSitelinksSearchBox, noTranslate)))
            == Some(GoogleElement.Expected(googlebot, noTranslate))
  {
    GoogleElement.CompileReads(googlebot, noSitelinksSearchBox, noTranslate);
  }

  /** `no_sitelinks_search_box` never changes the output, and the output is
      empty exactly when neither googlebot nor notranslate is asked for. */
  lemma SitelinksIgnored(googlebot: Option<string>, noTranslate: bool)
    ensures Compile(GoogleElement.New(googlebot, true, noTranslate)) == Compile(GoogleElement.New(googlebot, false, noTranslate))
    ensures Compile(GoogleElement.New(googlebot, true, noTranslate)) == "" <==> googlebot.None? && !noTranslate
  {
    GoogleElement.SitelinksIgnored(googlebot, noTranslate);
    GoogleElement.EmptyIff(googlebot, true, noTranslate);
  }
}
