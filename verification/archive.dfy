/** The archived single-module `tags`: the same classes as the later package,
    each written with single spaces between the attributes. `LinkTag` and
    `ScriptTag` have no `id`; `MetaTag` chooses between `http-equiv=`,
    `property=` and `name=`; the classes made of several meta tags write the
    set ones in `_order`, one per line. `FavIcon` passes each table entry's
    `type` key where the link takes `type_`, so every icon loses its type. */
module ArchiveTags {

  import opened Wrappers
  import opened Markup
  import opened Attrs
  import MetaElement
  import MetaLines
  import LinkElement
  import LinkLines
  import LinkTag
  import ScriptElement
  import ScriptTag
  import FaviconElement
  import GoogleElement
  import VerificationElement
  import OpenGraphWebsiteElement
  import TwitterCardElement
  import GeoPositionElement
  import FlatTags
  import FlatGoogle
  import FlatKeywords
  import EarlyPackage

  // ---------------------------------------------------------------------------
  // LinkTag and ScriptTag

  /** `LinkTag(rel, href, sizes, type_, hreflang)`: the later tag with no id,
      so it writes and reads back as the live link without an id. */
  function Link(rel: string, href: Option<string>, sizes: Option<string>, typ: Option<string>,
                hreflang: Option<string>): (t: LinkTag.LinkTag)
    ensures t.id == ""
    ensures LinkTag.Render(t) == LinkElement.Render(LinkElement.Link(rel, href, sizes, typ, hreflang, None))
    ensures var l := LinkElement.Link(rel, href, sizes, typ, hreflang, None);
            QuoteFree(LinkElement.Fields(l)) && SpaceGtFree(LinkElement.Fields(l)) ==>
              LinkElement.Decode(LinkTag.Render(t)) == Some(l)
  {
    LinkTag.New(rel, href, sizes, typ, hreflang, None)
  }

  /** `ScriptTag(src, type_, async_, defer, crossorigin, integrity, nomodule,
      referrerpolicy)`: the later tag with no id. */
  function Script(src: string, typ: Option<string>, async: bool, defer: bool, crossorigin: Option<string>,
                  integrity: Option<string>, nomodule: bool, referrerpolicy: Option<string>): (t: ScriptTag.ScriptTag)
    ensures t.id == ""
    ensures var s := ScriptElement.Script(src, typ, async, defer, crossorigin, integrity, nomodule, referrerpolicy, None);
            ScriptTag.Render(t) == ScriptElement.Render(s)
            && (QuoteFree(ScriptElement.Fields(s)) && SpaceGtFree(ScriptElement.Fields(s)) ==>
                  ScriptElement.Decode(ScriptTag.Render(t)) == Some(s))
  {
    ScriptTag.New(ScriptElement.Script(src, typ, async, defer, crossorigin, integrity, nomodule, referrerpolicy, None))
  }

  // ---------------------------------------------------------------------------
  // MetaTag

  /** `MetaTag(name, content, is_http_equiv, is_property)`. */
  datatype MetaTag = MetaTag(name: string, content: string, isHttpEquiv: bool, isProperty: bool)

  /** The attribute that carries the name: `http-equiv` wins over `property`,
      which wins over the default `name`. */
  function Kind(t: MetaTag): (k: MetaElement.Kind)
    ensures k == MetaElement.HttpEquiv <==> t.isHttpEquiv
    ensures k == MetaElement.Property <==> !t.isHttpEquiv && t.isProperty
    ensures k == MetaElement.Name <==> !t.isHttpEquiv && !t.isProperty
  {
    if t.isHttpEquiv then MetaElement.HttpEquiv
    else if t.isProperty then MetaElement.Property
    else MetaElement.Name
  }

  function AsMeta(t: MetaTag): MetaElement.Meta
  {
    MetaElement.Meta(Kind(t), t.name, Some(t.content), None)
  }

  /** `_compile`: the single-spaced tag under the chosen attribute; it reads
      back as that meta element when neither value holds a double quote. */
  function Render(t: MetaTag): (r: string)
    ensures r == MetaElement.TightRender(AsMeta(t))
    ensures IsValue(t.name) && IsValue(t.content) ==> MetaElement.Decode(r) == Some(AsMeta(t))
  {
    MetaFacts(t);
    "<meta " + MetaElement.KindAttr(Kind(t)) + "=\"" + t.name + "\" content=\"" + t.content + "\">"
  }

  lemma MetaFacts(t: MetaTag)
    ensures MetaElement.TightRender(AsMeta(t))
            == "<meta " + MetaElement.KindAttr(Kind(t)) + "=\"" + t.name + "\" content=\"" + t.content + "\">"
    ensures IsValue(t.name) && IsValue(t.content) ==>
              MetaElement.Decode(MetaElement.TightRender(AsMeta(t))) == Some(AsMeta(t))
  {
    MetaElement.ContentOnlyText(Kind(t), t.name, t.content);
    if IsValue(t.name) && IsValue(t.content) {
      MetaElement.ContentOnly(Kind(t), t.name, t.content);
    }
  }

  /** `replace_content`: the tag then reads back with the new content, under
      the same attribute and name. */
  function ReplaceContent(t: MetaTag, content: string): (u: MetaTag)
    ensures Kind(u) == Kind(t) && u.name == t.name
    ensures IsValue(t.name) && IsValue(content) ==>
              MetaElement.Decode(Render(u)) == Some(MetaElement.Meta(Kind(t), t.name, Some(content), None))
  {
    t.(content := content)
  }

  /** With neither flag set the tag is the first package's `name=` tag. */
  lemma NameTagAsFlat(name: string, content: string)
    ensures Render(MetaTag(name, content, false, false)) == FlatTags.Render(FlatTags.MetaTag(name, content))
  {
  }

  // ---------------------------------------------------------------------------
  // FavIcon

  /** A table entry as the link constructor receives it when the entry is
      unpacked into keyword arguments: `type` names no parameter of the link
      (which takes `type_`) and is swallowed with the other unknown keys. */
  function Untyped(icon: LinkLines.Icon): (u: LinkLines.Icon)
    ensures u.rel == icon.rel && u.sizes == icon.sizes && u.typ.None?
  {
    LinkLines.Icon(icon.rel, icon.sizes, None)
  }

  function UntypedTable(table: seq<LinkLines.Icon>): (u: seq<LinkLines.Icon>)
    ensures |u| == |table|
    ensures forall i :: 0 <= i < |table| ==> u[i] == Untyped(table[i])
  {
    seq(|table|, i requires 0 <= i < |table| => Untyped(table[i]))
  }

  /** A link with its type removed. */
  function DropTypes(ls: seq<LinkElement.Link>): (ds: seq<LinkElement.Link>)
    ensures |ds| == |ls|
    ensures forall j :: 0 <= j < |ls| ==> ds[j] == ls[j].(typ := None)
  {
    if |ls| == 0 then [] else [ls[0].(typ := None)] + DropTypes(ls[1..])
  }

  /** `FavIcon` as written: one link per truthy href, in table order, built
      from the table without its types. The output is empty exactly when no
      href is truthy, and reads back as those untyped links. */
  function FavIconCompile(hrefs: FaviconElement.Hrefs): (r: string)
    ensures r == "" <==> forall i :: 0 <= i < 21 ==> !LinkLines.Truthy(hrefs[i])
    ensures (forall i :: 0 <= i < 21 ==> LinkLines.OptPlain(hrefs[i])) ==>
              LinkLines.Read(r) == Some(DropTypes(LinkLines.Picked(FaviconElement.Table, hrefs)))
  {
    FavIconFacts(hrefs);
    LinkTag.Output(LinkTag.Wrap(LinkLines.Slots(UntypedTable(FaviconElement.Table), hrefs)))
  }

  lemma FavIconFacts(hrefs: FaviconElement.Hrefs)
    ensures var slots := LinkLines.Slots(UntypedTable(FaviconElement.Table), hrefs);
            LinkTag.Output(LinkTag.Wrap(slots)) == LinkLines.Output(slots)
    ensures var out := LinkLines.Output(LinkLines.Slots(UntypedTable(FaviconElement.Table), hrefs));
            out == "" <==> forall i :: 0 <= i < 21 ==> !LinkLines.Truthy(hrefs[i])
    ensures (forall i :: 0 <= i < 21 ==> LinkLines.OptPlain(hrefs[i])) ==>
              LinkLines.Read(LinkLines.Output(LinkLines.Slots(UntypedTable(FaviconElement.Table), hrefs)))
              == Some(DropTypes(LinkLines.Picked(FaviconElement.Table, hrefs)))
  {
    var table := UntypedTable(FaviconElement.Table);
    LinkTag.OutputAsElement(LinkLines.Slots(table, hrefs));
    LinkLines.SlotsEmpty(table, hrefs);
    if forall i :: 0 <= i < 21 ==> LinkLines.OptPlain(hrefs[i]) {
      FaviconElement.TablePlain();
      UntypedPlain(FaviconElement.Table);
      LinkLines.ReadSlots(table, hrefs);
      PickedUntyped(FaviconElement.Table, hrefs);
    }
  }

  lemma UntypedPlain(table: seq<LinkLines.Icon>)
    requires forall i :: 0 <= i < |table| ==> LinkLines.IconPlain(table[i])
    ensures forall i :: 0 <= i < |table| ==> LinkLines.IconPlain(UntypedTable(table)[i])
  {
  }

  /** The untyped table picks the links the typed one picks, types removed. */
  lemma {:induction false} PickedUntyped(table: seq<LinkLines.Icon>, hrefs: seq<Option<string>>)
    requires |table| == |hrefs|
    ensures LinkLines.Picked(UntypedTable(table), hrefs) == DropTypes(LinkLines.Picked(table, hrefs))
    decreases |table|
  {
    if |table| > 0 {
      assert UntypedTable(table)[1..] == UntypedTable(table[1..]);
      PickedUntyped(table[1..], hrefs[1..]);
    }
  }

  /** The type is lost: with a truthy ico href, the archived output's first
      link has no type where the live element's is `image/x-icon`, so the two
      outputs differ. */
  lemma FavIconDropsType(hrefs: FaviconElement.Hrefs)
    requires forall i :: 0 <= i < 21 ==> LinkLines.OptPlain(hrefs[i])
    requires LinkLines.Truthy(hrefs[0])
    ensures var r := LinkLines.Read(FavIconCompile(hrefs));
            r.Some? && |r.value| > 0 && r.value[0].typ == None
    ensures var r := LinkLines.Read(FaviconElement.Compile(FaviconElement.Favicon(hrefs)));
            r.Some? && |r.value| > 0 && r.value[0].typ == Some("image/x-icon")
    ensures FavIconCompile(hrefs) != FaviconElement.Compile(FaviconElement.Favicon(hrefs))
  {
    var ls := LinkLines.Picked(FaviconElement.Table, hrefs);
    FaviconElement.CompileReads(FaviconElement.Favicon(hrefs));
    IcoFirst();
    PickedHead(FaviconElement.Table, hrefs);
    assert ls[0].typ == Some("image/x-icon");
    assert DropTypes(ls)[0].typ == None;
  }

  lemma IcoFirst()
    ensures FaviconElement.Table[0].typ == Some("image/x-icon")
  {
  }

  /** A truthy first href gives the first link, with the first entry's
      attributes. */
  lemma PickedHead(table: seq<LinkLines.Icon>, hrefs: seq<Option<string>>)
    requires |table| == |hrefs| > 0 && LinkLines.Truthy(hrefs[0])
    ensures |LinkLines.Picked(table, hrefs)| > 0
    ensures LinkLines.Picked(table, hrefs)[0]
            == LinkElement.Link(table[0].rel, hrefs[0], table[0].sizes, table[0].typ, None, None)
  {
  }

  /** `FavIcon` with the entry's type passed as `type_`: it writes what the
      live element writes, and reads back as the typed links. */
  function FavIconTyped(hrefs: FaviconElement.Hrefs): (r: string)
    ensures r == FaviconElement.Compile(FaviconElement.Favicon(hrefs))
    ensures r == "" <==> forall i :: 0 <= i < 21 ==> !LinkLines.Truthy(hrefs[i])
    ensures (forall i :: 0 <= i < 21 ==> LinkLines.OptPlain(hrefs[i])) ==>
              LinkLines.Read(r) == Some(LinkLines.Picked(FaviconElement.Table, hrefs))
  {
    TypedFacts(hrefs);
    LinkTag.Output(LinkTag.Wrap(LinkLines.Slots(FaviconElement.Table, hrefs)))
  }

  lemma TypedFacts(hrefs: FaviconElement.Hrefs)
    ensures var slots := LinkLines.Slots(FaviconElement.Table, hrefs);
            LinkTag.Output(LinkTag.Wrap(slots)) == FaviconElement.Compile(FaviconElement.Favicon(hrefs))
    ensures FaviconElement.Compile(FaviconElement.Favicon(hrefs)) == "" <==>
              forall i :: 0 <= i < 21 ==> !LinkLines.Truthy(hrefs[i])
    ensures (forall i :: 0 <= i < 21 ==> LinkLines.OptPlain(hrefs[i])) ==>
              LinkLines.Read(FaviconElement.Compile(FaviconElement.Favicon(hrefs)))
              == Some(LinkLines.Picked(FaviconElement.Table, hrefs))
  {
    LinkTag.OutputAsElement(LinkLines.Slots(FaviconElement.Table, hrefs));
    FaviconElement.EmptyIff(FaviconElement.Favicon(hrefs));
    if forall i :: 0 <= i < 21 ==> LinkLines.OptPlain(hrefs[i]) {
      FaviconElement.CompileReads(FaviconElement.Favicon(hrefs));
    }
  }

  // ---------------------------------------------------------------------------
  // Classes made of several meta tags

  /** `_compile`: the set tags in `_order`, single-spaced, one per line, or
      `""` when none is set. */
  function Compile(slots: seq<Option<MetaElement.Meta>>): string
  {
    MetaLines.Output(MetaLines.Tight, slots)
  }

  // Google

  /** `Google(googlebot, no_sitelinks_search_box, no_translate)` as written:
      the googlebot tag, then `notranslate`; the flag for the search box sets
      a `sitelinks` attribute that `_order` never names, so no tag is written
      for it. Empty exactly when neither the googlebot directive nor
      `no_translate` is given. */
  function GoogleCompile(googlebot: Option<string>, noSitelinksSearchBox: bool, noTranslate: bool): (r: string)
    ensures r == "" <==> googlebot.None? && !noTranslate
    ensures MetaLines.OptValue(googlebot) ==> MetaLines.Read(r) == Some(GoogleElement.Expected(googlebot, noTranslate))
  {
    GoogleFacts(googlebot, noSitelinksSearchBox, noTranslate);
    Compile(GoogleElement.Order(GoogleElement.New(googlebot, noSitelinksSearchBox, noTranslate)))
  }

  lemma GoogleFacts(googlebot: Option<string>, noSitelinksSearchBox: bool, noTranslate: bool)
    ensures var slots := GoogleElement.Order(GoogleElement.New(googlebot, noSitelinksSearchBox, noTranslate));
            Compile(slots) == "" <==> googlebot.None? && !noTranslate
    ensures MetaLines.OptValue(googlebot) ==>
              MetaLines.Read(Compile(GoogleElement.Order(GoogleElement.New(googlebot, noSitelinksSearchBox, noTranslate))))
              == Some(GoogleElement.Expected(googlebot, noTranslate))
  {
    var slots := GoogleElement.Order(GoogleElement.New(googlebot, noSitelinksSearchBox, noTranslate));
    MetaLines.OutputEmpty(MetaLines.Tight, slots);
    assert slots[0].Some? <==> googlebot.Some?;
    assert slots[2].Some? <==> noTranslate;
    if MetaLines.OptValue(googlebot) {
      GoogleElement.SlotsGood(googlebot, noSitelinksSearchBox, noTranslate);
      GoogleElement.SlotsPresent(googlebot, noSitelinksSearchBox, noTranslate);
      MetaLines.ReadOutput(MetaLines.Tight, slots);
    }
  }

  /** The search-box flag changes nothing in the output. */
  lemma GoogleSitelinksIgnored(googlebot: Option<string>, noTranslate: bool)
    ensures GoogleCompile(googlebot, true, noTranslate) == GoogleCompile(googlebot, false, noTranslate)
  {
    assert GoogleElement.Order(GoogleElement.New(googlebot, true, noTranslate))
        == GoogleElement.Order(GoogleElement.New(googlebot, false, noTranslate));
  }

  /** The names and the values of the three slots of `_order` once the flag
      fills the `sitelinkssearchbox` slot, as evidently intended. */
  const GoogleNames: seq<string> := ["googlebot", "google", "google"]

  function GoogleValues(googlebot: Option<string>, noSitelinksSearchBox: bool, noTranslate: bool): seq<Option<string>>
  {
    [googlebot, if noSitelinksSearchBox then Some("nositelinkssearchbox") else None,
     if noTranslate then Some("notranslate") else None]
  }

  /** `Google` with the flag assigning the slot `_order` names: the googlebot
      tag, the `nositelinkssearchbox` tag, the `notranslate` tag, each when
      asked for, in that order. */
  function GoogleIntended(googlebot: Option<string>, noSitelinksSearchBox: bool, noTranslate: bool): (r: string)
    ensures r == "" <==> googlebot.None? && !noSitelinksSearchBox && !noTranslate
    ensures MetaLines.OptValue(googlebot) ==>
              MetaLines.Read(r) == Some(MetaLines.Listed(MetaLines.Line(MetaElement.Name, "googlebot", googlebot))
                                        + (if noSitelinksSearchBox then [SitelinksMeta()] else [])
                                        + (if noTranslate then [GoogleElement.NoTranslateMeta()] else []))
  {
    IntendedFacts(googlebot, noSitelinksSearchBox, noTranslate);
    Compile(MetaLines.Slots(MetaElement.Name, GoogleNames, GoogleValues(googlebot, noSitelinksSearchBox, noTranslate)))
  }

  /** Without the flag the intended class writes the same tags as the class
      as written; with it, exactly one tag more. */
  lemma GoogleIntendedAgrees(googlebot: Option<string>, noSitelinksSearchBox: bool, noTranslate: bool)
    requires MetaLines.OptValue(googlebot)
    ensures MetaLines.Read(GoogleIntended(googlebot, false, noTranslate))
            == MetaLines.Read(GoogleCompile(googlebot, noSitelinksSearchBox, noTranslate))
    ensures |MetaLines.Read(GoogleIntended(googlebot, true, noTranslate)).value|
            == |MetaLines.Read(GoogleCompile(googlebot, noSitelinksSearchBox, noTranslate)).value| + 1
  {
    var a := MetaLines.Listed(MetaLines.Line(MetaElement.Name, "googlebot", googlebot));
    var c: seq<MetaElement.Meta> := if noTranslate then [GoogleElement.NoTranslateMeta()] else [];
    assert a + [] + c == a + c;
  }

  function SitelinksMeta(): MetaElement.Meta
  {
    MetaElement.Meta(MetaElement.Name, "google", Some("nositelinkssearchbox"), None)
  }

  lemma IntendedFacts(googlebot: Option<string>, noSitelinksSearchBox: bool, noTranslate: bool)
    ensures var r := Compile(MetaLines.Slots(MetaElement.Name, GoogleNames, GoogleValues(googlebot, noSitelinksSearchBox, noTranslate)));
            r == "" <==> googlebot.None? && !noSitelinksSearchBox && !noTranslate
    ensures MetaLines.OptValue(googlebot) ==>
              MetaLines.Read(Compile(MetaLines.Slots(MetaElement.Name, GoogleNames, GoogleValues(googlebot, noSitelinksSearchBox, noTranslate))))
              == Some(MetaLines.Listed(MetaLines.Line(MetaElement.Name, "googlebot", googlebot))
                      + (if noSitelinksSearchBox then [SitelinksMeta()] else [])
                      + (if noTranslate then [GoogleElement.NoTranslateMeta()] else []))
  {
    IntendedEmpty(googlebot, noSitelinksSearchBox, noTranslate);
    if MetaLines.OptValue(googlebot) {
      IntendedReads(googlebot, noSitelinksSearchBox, noTranslate);
      IntendedPicked(googlebot, noSitelinksSearchBox, noTranslate);
    }
  }

  lemma IntendedEmpty(googlebot: Option<string>, noSitelinksSearchBox: bool, noTranslate: bool)
    ensures var r := Compile(MetaLines.Slots(MetaElement.Name, GoogleNames, GoogleValues(googlebot, noSitelinksSearchBox, noTranslate)));
            r == "" <==> googlebot.None? && !noSitelinksSearchBox && !noTranslate
  {
    var vs := GoogleValues(googlebot, noSitelinksSearchBox, noTranslate);
    MetaLines.SlotsEmpty(MetaLines.Tight, MetaElement.Name, GoogleNames, vs);
    if forall i :: 0 <= i < 3 ==> vs[i].None? {
      assert vs[0].None? && vs[1].None? && vs[2].None?;
    }
  }

  lemma IntendedReads(googlebot: Option<string>, noSitelinksSearchBox: bool, noTranslate: bool)
    requires MetaLines.OptValue(googlebot)
    ensures var vs := GoogleValues(googlebot, noSitelinksSearchBox, noTranslate);
            MetaLines.Read(Compile(MetaLines.Slots(MetaElement.Name, GoogleNames, vs)))
            == Some(MetaLines.Picked(MetaElement.Name, GoogleNames, vs))
  {
    var vs := GoogleValues(googlebot, noSitelinksSearchBox, noTranslate);
    GoogleLiterals();
    assert forall i :: 0 <= i < |vs| ==> MetaLines.OptValue(vs[i]);
    MetaLines.ReadSlots(MetaLines.Tight, MetaElement.Name, GoogleNames, vs);
  }

  lemma GoogleLiterals()
    ensures forall i :: 0 <= i < |GoogleNames| ==> MetaLines.Value(GoogleNames[i])
    ensures MetaLines.Value("nositelinkssearchbox") && MetaLines.Value("notranslate")
  {
    assert MetaLines.Value(GoogleNames[0]);
    assert MetaLines.Value(GoogleNames[1]);
  }

  /** The tags picked from the three slots, one by one. */
  lemma IntendedPicked(googlebot: Option<string>, noSitelinksSearchBox: bool, noTranslate: bool)
    ensures MetaLines.Picked(MetaElement.Name, GoogleNames, GoogleValues(googlebot, noSitelinksSearchBox, noTranslate))
            == MetaLines.Listed(MetaLines.Line(MetaElement.Name, "googlebot", googlebot))
               + (if noSitelinksSearchBox then [SitelinksMeta()] else [])
               + (if noTranslate then [GoogleElement.NoTranslateMeta()] else [])
  {
    var k := MetaElement.Name;
    var ns := GoogleNames;
    var vs := GoogleValues(googlebot, noSitelinksSearchBox, noTranslate);
    assert ns[1..][1..][1..] == [] && vs[1..][1..][1..] == [];
    assert MetaLines.Picked(k, ns[2..], vs[2..]) == (if noTranslate then [GoogleElement.NoTranslateMeta()] else []) by {
      assert ns[2..] == ns[1..][1..] && vs[2..] == vs[1..][1..];
    }
    assert MetaLines.Picked(k, ns[1..], vs[1..])
        == (if noSitelinksSearchBox then [SitelinksMeta()] else []) + MetaLines.Picked(k, ns[2..], vs[2..]) by {
      assert ns[2..] == ns[1..][1..] && vs[2..] == vs[1..][1..];
    }
  }

  // ---------------------------------------------------------------------------
  // Verification

  /** `Verification` writes the same tags as the live element, in the same
      order: the two outputs read back alike. */
  lemma VerificationSameTags(v: VerificationElement.Verification)
    requires forall i :: 0 <= i < 6 ==> MetaLines.OptValue(VerificationElement.Values(v)[i])
    ensures MetaLines.Read(FlatGoogle.VerificationCompile(v)) == MetaLines.Read(VerificationElement.Compile(v))
    ensures FlatGoogle.VerificationCompile(v) == "" <==> VerificationElement.Compile(v) == ""
  {
    VerificationElement.CompileReads(v);
    VerificationElement.EmptyIff(v);
  }

  // ---------------------------------------------------------------------------
  // OpenGraphWebsite

  /** `OpenGraphWebsite(locale, title, image, image_alt, description,
      site_name, url)`: the `og:type` and `og:locale` tags always, then a tag
      per other argument given, in the live element's order, all under
      `property=`; never empty. */
  function OpenGraphCompile(locale: string, title: Option<string>, image: Option<string>, imageAlt: Option<string>,
                            description: Option<string>, siteName: Option<string>, url: Option<string>): (r: string)
    ensures r != ""
    ensures var o := OpenGraphWebsiteElement.New(Some(locale), siteName, title, description, url, image, imageAlt);
            (forall i :: 0 <= i < 8 ==> MetaLines.OptValue(OpenGraphWebsiteElement.Values(o)[i])) ==>
              MetaLines.Read(r) == Some(MetaLines.Picked(MetaElement.Property, OpenGraphWebsiteElement.Names,
                                                         OpenGraphWebsiteElement.Values(o)))
    ensures var o := OpenGraphWebsiteElement.New(Some(locale), siteName, title, description, url, image, imageAlt);
            |MetaLines.Picked(MetaElement.Property, OpenGraphWebsiteElement.Names, OpenGraphWebsiteElement.Values(o))| >= 2 &&
            MetaLines.Picked(MetaElement.Property, OpenGraphWebsiteElement.Names, OpenGraphWebsiteElement.Values(o))[..2]
            == [MetaElement.Meta(MetaElement.Property, "og:type", Some("website"), None),
                MetaElement.Meta(MetaElement.Property, "og:locale", Some(locale), None)]
  {
    var o := OpenGraphWebsiteElement.New(Some(locale), siteName, title, description, url, image, imageAlt);
    OpenGraphFacts(o);
    OpenGraphWebsiteElement.TypeAndLocaleFirst(o);
    Compile(OpenGraphWebsiteElement.Order(o))
  }

  lemma OpenGraphFacts(o: OpenGraphWebsiteElement.OpenGraphWebsite)
    ensures Compile(OpenGraphWebsiteElement.Order(o)) != ""
    ensures (forall i :: 0 <= i < 8 ==> MetaLines.OptValue(OpenGraphWebsiteElement.Values(o)[i])) ==>
              MetaLines.Read(Compile(OpenGraphWebsiteElement.Order(o)))
              == Some(MetaLines.Picked(MetaElement.Property, OpenGraphWebsiteElement.Names, OpenGraphWebsiteElement.Values(o)))
  {
    var vs := OpenGraphWebsiteElement.Values(o);
    MetaLines.SlotsEmpty(MetaLines.Tight, MetaElement.Property, OpenGraphWebsiteElement.Names, vs);
    assert vs[0].Some?;
    if forall i :: 0 <= i < 8 ==> MetaLines.OptValue(vs[i]) {
      OpenGraphWebsiteElement.NamesGood();
      MetaLines.ReadSlots(MetaLines.Tight, MetaElement.Property, OpenGraphWebsiteElement.Names, vs);
    }
  }

  // ---------------------------------------------------------------------------
  // TwitterCard

  /** `TwitterCard(card, site_account, creator_account, title, description,
      image, image_alt, url)`: the card tag always (`summary` by default),
      then a tag per other argument given, in the live element's order;
      never empty. */
  function TwitterCompile(card: string, site: Option<string>, creator: Option<string>, title: Option<string>,
                          description: Option<string>, image: Option<string>, imageAlt: Option<string>,
                          url: Option<string>): (r: string)
    ensures r != ""
    ensures var t := TwitterCardElement.New(Some(card), title, description, url, image, imageAlt, site, creator);
            (forall i :: 0 <= i < 8 ==> MetaLines.OptValue(TwitterCardElement.Values(t)[i])) ==>
              MetaLines.Read(r) == Some(MetaLines.Picked(MetaElement.Name, TwitterCardElement.Names,
                                                         TwitterCardElement.Values(t)))
    ensures var t := TwitterCardElement.New(Some(card), title, description, url, image, imageAlt, site, creator);
            |MetaLines.Picked(MetaElement.Name, TwitterCardElement.Names, TwitterCardElement.Values(t))| > 0 &&
            MetaLines.Picked(MetaElement.Name, TwitterCardElement.Names, TwitterCardElement.Values(t))[0]
            == MetaElement.Meta(MetaElement.Name, "twitter:card", Some(card), None)
  {
    var t := TwitterCardElement.New(Some(card), title, description, url, image, imageAlt, site, creator);
    TwitterFacts(t);
    Compile(TwitterCardElement.Order(t))
  }

  lemma TwitterFacts(t: TwitterCardElement.TwitterCard)
    ensures Compile(TwitterCardElement.Order(t)) != ""
    ensures (forall i :: 0 <= i < 8 ==> MetaLines.OptValue(TwitterCardElement.Values(t)[i])) ==>
              MetaLines.Read(Compile(TwitterCardElement.Order(t)))
              == Some(MetaLines.Picked(MetaElement.Name, TwitterCardElement.Names, TwitterCardElement.Values(t)))
    ensures |MetaLines.Picked(MetaElement.Name, TwitterCardElement.Names, TwitterCardElement.Values(t))| > 0
    ensures MetaLines.Picked(MetaElement.Name, TwitterCardElement.Names, TwitterCardElement.Values(t))[0]
            == MetaElement.Meta(MetaElement.Name, "twitter:card", Some(t.card), None)
  {
    var vs := TwitterCardElement.Values(t);
    MetaLines.SlotsEmpty(MetaLines.Tight, MetaElement.Name, TwitterCardElement.Names, vs);
    assert vs[0].Some?;
    if forall i :: 0 <= i < 8 ==> MetaLines.OptValue(vs[i]) {
      TwitterCardElement.NamesGood();
      MetaLines.ReadSlots(MetaLines.Tight, MetaElement.Name, TwitterCardElement.Names, vs);
    }
  }

  // ---------------------------------------------------------------------------
  // GeoPosition

  /** `GeoPosition(icbm, geo_position, geo_region, geo_placename)`: a tag per
      argument given, in that order; empty exactly when none is given. */
  function GeoCompile(icbm: Option<string>, position: Option<string>, region: Option<string>,
                      placename: Option<string>): (r: string)
    ensures r == "" <==> icbm.None? && position.None? && region.None? && placename.None?
    ensures MetaLines.OptValue(icbm) && MetaLines.OptValue(position) && MetaLines.OptValue(region)
            && MetaLines.OptValue(placename) ==>
              MetaLines.Read(r) == Some(MetaLines.Picked(MetaElement.Name, GeoPositionElement.Names,
                                                         [icbm, position, region, placename]))
  {
    GeoFacts(GeoPositionElement.GeoPosition(icbm, position, region, placename));
    Compile(GeoPositionElement.Order(GeoPositionElement.GeoPosition(icbm, position, region, placename)))
  }

  lemma GeoFacts(g: GeoPositionElement.GeoPosition)
    ensures Compile(GeoPositionElement.Order(g)) == "" <==> g == GeoPositionElement.GeoPosition(None, None, None, None)
    ensures MetaLines.OptValue(g.icbm) && MetaLines.OptValue(g.position) && MetaLines.OptValue(g.region)
            && MetaLines.OptValue(g.placename) ==>
              MetaLines.Read(Compile(GeoPositionElement.Order(g)))
              == Some(MetaLines.Picked(MetaElement.Name, GeoPositionElement.Names, GeoPositionElement.Values(g)))
  {
    GeoEmpty(g);
    if MetaLines.OptValue(g.icbm) && MetaLines.OptValue(g.position) && MetaLines.OptValue(g.region)
       && MetaLines.OptValue(g.placename) {
      GeoReads(g);
    }
  }

  lemma GeoEmpty(g: GeoPositionElement.GeoPosition)
    ensures Compile(GeoPositionElement.Order(g)) == "" <==> g == GeoPositionElement.GeoPosition(None, None, None, None)
  {
    var vs := GeoPositionElement.Values(g);
    MetaLines.SlotsEmpty(MetaLines.Tight, MetaElement.Name, GeoPositionElement.Names, vs);
    if g != GeoPositionElement.GeoPosition(None, None, None, None) {
      assert exists i :: 0 <= i < 4 && vs[i].Some?;
    }
  }

  lemma GeoReads(g: GeoPositionElement.GeoPosition)
    requires forall i :: 0 <= i < 4 ==> MetaLines.OptValue(GeoPositionElement.Values(g)[i])
    ensures MetaLines.Read(Compile(GeoPositionElement.Order(g)))
            == Some(MetaLines.Picked(MetaElement.Name, GeoPositionElement.Names, GeoPositionElement.Values(g)))
  {
    GeoPositionElement.NamesGood();
    MetaLines.ReadSlots(MetaLines.Tight, MetaElement.Name, GeoPositionElement.Names, GeoPositionElement.Values(g));
  }

  // ---------------------------------------------------------------------------
  // Title and Keywords: the same classes as in the first package's `tags`

  /** `Title`: `append` puts the separator and the new piece after the text,
      `prepend` puts the new piece and the separator before it, and the result
      is wrapped in the title tags unless they are excluded. */
  lemma TitleAffixes(title: string, exclude: bool, more: string, sep: string)
    ensures var t := FlatTags.Title(EarlyPackage.PageTitle(title), exclude);
            FlatTags.RenderTitle(FlatTags.Append(t, more, sep))
            == if exclude then title + sep + more else "<title>" + title + sep + more + "</title>"
    ensures var t := FlatTags.Title(EarlyPackage.PageTitle(title), exclude);
            FlatTags.RenderTitle(FlatTags.Prepend(t, more, sep))
            == if exclude then more + sep + title else "<title>" + more + sep + title + "</title>"
  {
    var t := FlatTags.Title(EarlyPackage.PageTitle(title), exclude);
    TitleAppended(t, more, sep);
    TitleText(title + sep + more, exclude);
    TitlePrepended(t, more, sep);
    TitleText(more + sep + title, exclude);
    Wrapped(title, sep, more);
    Wrapped(more, sep, title);
  }

  lemma TitleText(s: string, exclude: bool)
    ensures FlatTags.RenderTitle(FlatTags.Title(EarlyPackage.PageTitle(s), exclude))
            == if exclude then s else "<title>" + s + "</title>"
  {
  }

  lemma Wrapped(a: string, b: string, c: string)
    ensures "<title>" + (a + b + c) + "</title>" == "<title>" + a + b + c + "</title>"
  {
  }

  lemma TitleAppended(t: FlatTags.Title, more: string, sep: string)
    ensures FlatTags.Append(t, more, sep) == FlatTags.Title(EarlyPackage.PageTitle(t.page.title + sep + more), t.exclude)
  {
  }

  lemma TitlePrepended(t: FlatTags.Title, more: string, sep: string)
    ensures FlatTags.Prepend(t, more, sep) == FlatTags.Title(EarlyPackage.PageTitle(more + sep + t.page.title), t.exclude)
  {
  }

  /** `Keywords`: once set from a string the keywords can be written, and after
      `str_append` or `list_append` they no longer can. */
  lemma KeywordsAppendBreaks(s: string, more: string, ks: seq<string>)
    ensures FlatKeywords.Render(FlatKeywords.SetFromString(FlatKeywords.New(), s)).Success?
    ensures var k := FlatKeywords.SetFromString(FlatKeywords.New(), s);
            FlatKeywords.Render(FlatKeywords.StrAppend(k, more).value).Failure?
            && FlatKeywords.Render(FlatKeywords.ListAppend(k, ks).value).Failure?
  {
    var k := FlatKeywords.SetFromString(FlatKeywords.New(), s);
    FlatKeywords.AppendBreaksRender(k, more, ks);
  }
}
