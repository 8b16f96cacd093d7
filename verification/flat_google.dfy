/** `Google` and `Verification` of the first package's single-module `tags`:
    optional `MetaTag`s held in named attributes, written one per line in the
    order an `_order` list of attribute names gives, each looked up with
    `getattr`. The `Google` list names attributes with a `t__` prefix that the
    class never defines, so every lookup raises `AttributeError`;
    `GoogleCompile` is the evidently intended writer, over the names the
    class does define. */
module FlatGoogle {

  import opened Wrappers
  import opened Text
  import MetaElement
  import MetaLines
  import Lines
  import FlatTags
  import VerificationElement

  // ---------------------------------------------------------------------------
  // Google

  /** The four optional tags the class declares. */
  datatype Google = Google(googlebot: Option<FlatTags.MetaTag>, sitelinks: Option<FlatTags.MetaTag>,
                           noTranslate: Option<FlatTags.MetaTag>, verificationToken: Option<FlatTags.MetaTag>)

  /** Looking up an attribute the class does not define. */
  datatype LookupError = AttributeError

  /** The googlebot directives: `index`/`noindex` when `index` is given, then
      `follow`/`nofollow` when `follow` is given. */
  function Directives(index: Option<bool>, follow: Option<bool>): (ds: seq<string>)
    ensures |ds| == (if index.Some? then 1 else 0) + (if follow.Some? then 1 else 0)
    ensures index.Some? ==> ds[0] == (if index.value then "index" else "noindex")
    ensures follow.Some? ==> ds[|ds| - 1] == (if follow.value then "follow" else "nofollow")
  {
    (if index.None? then [] else if index.value then ["index"] else ["noindex"])
    + (if follow.None? then [] else if follow.value then ["follow"] else ["nofollow"])
  }

  /** The constructor: a `googlebot` tag when any directive is given, with the
      directives joined by `", "`; `google` tags for the two flags. */
  function NewGoogle(index: Option<bool>, follow: Option<bool>, noSitelinksSearchBox: bool, noTranslate: bool): (g: Google)
    ensures g.googlebot.Some? <==> index.Some? || follow.Some?
    ensures g.googlebot.Some? ==> g.googlebot.value.name == "googlebot"
                                  && g.googlebot.value.content == Join(Directives(index, follow), ", ")
    ensures g.sitelinks.Some? <==> noSitelinksSearchBox
    ensures g.noTranslate.Some? <==> noTranslate
    ensures g.verificationToken.None?
  {
    var ds := Directives(index, follow);
    Google(if |ds| > 0 then Some(FlatTags.MetaTag("googlebot", Join(ds, ", "))) else None,
           if noSitelinksSearchBox then Some(FlatTags.MetaTag("google", "nositelinkssearchbox")) else None,
           if noTranslate then Some(FlatTags.MetaTag("google", "notranslate")) else None,
           None)
  }

  /** Both directives are written `index`/`noindex`, `", "`, `follow`/`nofollow`. */
  lemma BothDirectives(index: bool, follow: bool)
    ensures NewGoogle(Some(index), Some(follow), false, false).googlebot.value.content
            == (if index then "index" else "noindex") + ", " + (if follow then "follow" else "nofollow")
  {
    var x := if index then "index" else "noindex";
    var y := if follow then "follow" else "nofollow";
    assert Directives(Some(index), Some(follow)) == [x, y];
    assert Join([x, y], ", ") == x + ", " + Join([y], ", ");
  }

  /** The four tag attributes the class declares with a `None` default, which
      `__init__` may then set on the instance. */
  const Declared: seq<string> := ["googlebot", "sitelinks", "no_translate", "verification_token"]

  /** `getattr(google, name)` for a name of the order list: it succeeds
      exactly for the four tag attributes. The other attributes, `_googlebot`
      and `_order`, are never named in the order list, so they are left out. */
  function Attr(g: Google, name: string): (r: Result<Option<FlatTags.MetaTag>, LookupError>)
    ensures r.Success? <==> name in Declared
  {
    if name == "googlebot" then Success(g.googlebot)
    else if name == "sitelinks" then Success(g.sitelinks)
    else if name == "no_translate" then Success(g.noTranslate)
    else if name == "verification_token" then Success(g.verificationToken)
    else Failure(AttributeError)
  }

  /** The comprehension of `__str__`: the set tags in list order, or the error
      of the first lookup that raises. */
  function Collect(g: Google, order: seq<string>): (r: Result<seq<FlatTags.MetaTag>, LookupError>)
    ensures r.Success? <==> forall i :: 0 <= i < |order| ==> order[i] in Declared
    ensures r.Success? ==> |r.value| <= |order|
  {
    if |order| == 0 then Success([])
    else
      match Attr(g, order[0])
      case Failure(e) => Failure(e)
      case Success(o) =>
        assert forall i :: 1 <= i < |order| ==> order[i] == order[1..][i - 1];
        match Collect(g, order[1..])
        case Failure(e) => Failure(e)
        case Success(rest) => Success((if o.Some? then [o.value] else []) + rest)
  }

  function RenderAll(ts: seq<FlatTags.MetaTag>): (ls: seq<string>)
    ensures |ls| == |ts|
    ensures forall i :: 0 <= i < |ts| ==> ls[i] == FlatTags.Render(ts[i])
  {
    if |ts| == 0 then [] else [FlatTags.Render(ts[0])] + RenderAll(ts[1..])
  }

  /** `__str__` over a given order list. */
  function Str(g: Google, order: seq<string>): (r: Result<string, LookupError>)
    ensures r.Success? <==> Collect(g, order).Success?
  {
    match Collect(g, order)
    case Failure(e) => Failure(e)
    case Success(ts) => Success(Lines.Compile(RenderAll(ts)))
  }

  /** The `_order` list as written. */
  const WrittenOrder: seq<string> := ["t__googlebot", "t__sitelinks", "t__no_translate"]

  /** The `_order` list with the names the class defines. */
  const IntendedOrder: seq<string> := ["googlebot", "sitelinks", "no_translate"]

  /** As written, no `Google` can be written: the first lookup raises. */
  lemma GoogleAlwaysRaises(g: Google)
    ensures Str(g, WrittenOrder) == Failure(AttributeError)
  {
    assert WrittenOrder[0] !in Declared;
  }

  /** The attributes an order list of declared names looks up. */
  function Lookups(g: Google, order: seq<string>): (os: seq<Option<FlatTags.MetaTag>>)
    requires forall i :: 0 <= i < |order| ==> order[i] in Declared
    ensures |os| == |order|
    ensures forall i :: 0 <= i < |order| ==> os[i] == Attr(g, order[i]).value
  {
    if |order| == 0 then [] else [Attr(g, order[0]).value] + Lookups(g, order[1..])
  }

  /** The set tags among some slots, in order. */
  function Tags(os: seq<Option<FlatTags.MetaTag>>): seq<FlatTags.MetaTag>
  {
    if |os| == 0 then [] else (if os[0].Some? then [os[0].value] else []) + Tags(os[1..])
  }

  lemma {:induction false} CollectTags(g: Google, order: seq<string>)
    requires forall i :: 0 <= i < |order| ==> order[i] in Declared
    ensures Collect(g, order) == Success(Tags(Lookups(g, order)))
    decreases |order|
  {
    if |order| > 0 {
      assert forall i :: 1 <= i < |order| ==> order[i] == order[1..][i - 1];
      CollectTags(g, order[1..]);
      assert Lookups(g, order)[1..] == Lookups(g, order[1..]);
    }
  }

  function Meta(o: Option<FlatTags.MetaTag>): (r: Option<MetaElement.Meta>)
    ensures r.Some? <==> o.Some?
    ensures r.Some? ==> r.value == FlatTags.AsMeta(o.value)
  {
    if o.Some? then Some(FlatTags.AsMeta(o.value)) else None
  }

  function Metas(os: seq<Option<FlatTags.MetaTag>>): (ms: seq<Option<MetaElement.Meta>>)
    ensures |ms| == |os|
    ensures forall i :: 0 <= i < |os| ==> ms[i] == Meta(os[i])
  {
    if |os| == 0 then [] else [Meta(os[0])] + Metas(os[1..])
  }

  /** The set tags are the present meta elements, one for one. */
  lemma {:induction false} TagsMetas(os: seq<Option<FlatTags.MetaTag>>)
    ensures |Tags(os)| == |MetaLines.Present(Metas(os))|
    ensures forall i :: 0 <= i < |Tags(os)| ==> MetaLines.Present(Metas(os))[i] == FlatTags.AsMeta(Tags(os)[i])
    decreases |os|
  {
    if |os| > 0 {
      TagsMetas(os[1..]);
      assert Metas(os) == [Meta(os[0])] + Metas(os[1..]);
      MetaLines.PresentCons(Meta(os[0]), Metas(os[1..]));
    }
  }

  /** The set tags, written, are the single-spaced renderings of the present
      meta elements. */
  lemma TagsRender(os: seq<Option<FlatTags.MetaTag>>)
    ensures RenderAll(Tags(os)) == MetaLines.Renders(MetaLines.Tight, MetaLines.Present(Metas(os)))
  {
    TagsMetas(os);
  }

  /** The slots the intended order visits, as meta elements. */
  function Slots(g: Google): seq<Option<MetaElement.Meta>>
  {
    Metas([g.googlebot, g.sitelinks, g.noTranslate])
  }

  /** `__str__` with the intended order: the googlebot, sitelinks and
      notranslate tags that are set, single-spaced, one per line. */
  function GoogleCompile(g: Google): (r: string)
    ensures Str(g, IntendedOrder) == Success(r)
    ensures r == MetaLines.Output(MetaLines.Tight, Slots(g))
  {
    IntendedCollect(g);
    Lines.Compile(RenderAll(Collect(g, IntendedOrder).value))
  }

  lemma IntendedCollect(g: Google)
    ensures Collect(g, IntendedOrder).Success?
    ensures RenderAll(Collect(g, IntendedOrder).value) == MetaLines.Renders(MetaLines.Tight, MetaLines.Present(Slots(g)))
  {
    var o := IntendedOrder;
    assert forall i :: 0 <= i < |o| ==> o[i] in Declared;
    CollectTags(g, o);
    assert Lookups(g, o) == [g.googlebot, g.sitelinks, g.noTranslate];
    TagsRender([g.googlebot, g.sitelinks, g.noTranslate]);
  }

  /** The tags the intended writer reads back as, in order. */
  function Expected(index: Option<bool>, follow: Option<bool>, noSitelinksSearchBox: bool, noTranslate: bool): seq<MetaElement.Meta>
  {
    MetaLines.Present(Slots(NewGoogle(index, follow, noSitelinksSearchBox, noTranslate)))
  }

  /** The intended output is empty exactly when no argument asks for a tag. */
  lemma GoogleEmpty(index: Option<bool>, follow: Option<bool>, noSitelinksSearchBox: bool, noTranslate: bool)
    ensures GoogleCompile(NewGoogle(index, follow, noSitelinksSearchBox, noTranslate)) == ""
            <==> index.None? && follow.None? && !noSitelinksSearchBox && !noTranslate
  {
    var g := NewGoogle(index, follow, noSitelinksSearchBox, noTranslate);
    var s := Slots(g);
    MetaLines.OutputEmpty(MetaLines.Tight, s);
    if index.Some? || follow.Some? {
      assert s[0].Some?;
    }
    if noSitelinksSearchBox {
      assert s[1].Some?;
    }
    if noTranslate {
      assert s[2].Some?;
    }
  }

  /** The intended output reads back as one tag per requested slot, in the
      order googlebot, sitelinks, notranslate. */
  lemma GoogleReads(index: Option<bool>, follow: Option<bool>, noSitelinksSearchBox: bool, noTranslate: bool)
    ensures MetaLines.Read(GoogleCompile(NewGoogle(index, follow, noSitelinksSearchBox, noTranslate)))
            == Some(Expected(index, follow, noSitelinksSearchBox, noTranslate))
    ensures |Expected(index, follow, noSitelinksSearchBox, noTranslate)|
            == (if index.Some? || follow.Some? then 1 else 0) + (if noSitelinksSearchBox then 1 else 0) + (if noTranslate then 1 else 0)
  {
    GoogleSlotsGood(index, follow, noSitelinksSearchBox, noTranslate);
    MetaLines.ReadOutput(MetaLines.Tight, Slots(NewGoogle(index, follow, noSitelinksSearchBox, noTranslate)));
    ExpectedCount(index, follow, noSitelinksSearchBox, noTranslate);
  }

  lemma ExpectedCount(index: Option<bool>, follow: Option<bool>, noSitelinksSearchBox: bool, noTranslate: bool)
    ensures |Expected(index, follow, noSitelinksSearchBox, noTranslate)|
            == (if index.Some? || follow.Some? then 1 else 0) + (if noSitelinksSearchBox then 1 else 0) + (if noTranslate then 1 else 0)
  {
    var s := Slots(NewGoogle(index, follow, noSitelinksSearchBox, noTranslate));
    assert s == [s[0]] + ([s[1]] + ([s[2]] + []));
    MetaLines.PresentCons(s[2], []);
    MetaLines.PresentCons(s[1], [s[2]]);
    MetaLines.PresentCons(s[0], [s[1], s[2]]);
  }

  lemma GoogleSlotsGood(index: Option<bool>, follow: Option<bool>, noSitelinksSearchBox: bool, noTranslate: bool)
    ensures MetaLines.AllGood(Slots(NewGoogle(index, follow, noSitelinksSearchBox, noTranslate)))
  {
    var g := NewGoogle(index, follow, noSitelinksSearchBox, noTranslate);
    var os := [g.googlebot, g.sitelinks, g.noTranslate];
    var s := Slots(g);
    LiteralsGood();
    if g.googlebot.Some? {
      DirectivesClean(index, follow);
    }
    forall i | 0 <= i < 3 && os[i].Some? ensures MetaLines.Good(FlatTags.AsMeta(os[i].value)) {
      TagGood(os[i].value);
    }
    forall i | 0 <= i < |s| && s[i].Some? ensures MetaLines.Good(s[i].value) {
      assert s[i] == Meta(os[i]);
    }
  }

  lemma LiteralsGood()
    ensures MetaLines.Value("googlebot") && MetaLines.Value("google")
    ensures MetaLines.Value("nositelinkssearchbox") && MetaLines.Value("notranslate")
  {
  }

  lemma TagGood(t: FlatTags.MetaTag)
    requires MetaLines.Value(t.name) && MetaLines.Value(t.content)
    ensures MetaLines.Good(FlatTags.AsMeta(t))
  {
  }

  /** The googlebot content holds no double quote and no newline. */
  lemma DirectivesClean(index: Option<bool>, follow: Option<bool>)
    ensures MetaLines.Value(Join(Directives(index, follow), ", "))
  {
    var ds := Directives(index, follow);
    forall i | 0 <= i < |ds| ensures MetaLines.Value(ds[i]) {
    }
    JoinFree(ds, ", ", '"');
    JoinFree(ds, ", ", '\n');
  }

  // ---------------------------------------------------------------------------
  // Verification

  /** `__str__` of `Verification`: one single-spaced tag per site given, named
      by the site's verification name, in the fixed order; `""` when no site
      is given. Its `_order` names attributes the class defines. */
  function VerificationCompile(v: VerificationElement.Verification): (r: string)
    ensures r == "" <==> v == VerificationElement.Verification(None, None, None, None, None, None)
    ensures (forall i :: 0 <= i < 6 ==> MetaLines.OptValue(VerificationElement.Values(v)[i])) ==>
              MetaLines.Read(r) == Some(MetaLines.Picked(MetaElement.Name, VerificationElement.Names, VerificationElement.Values(v)))
  {
    VerificationFacts(v);
    MetaLines.Output(MetaLines.Tight, VerificationElement.Order(v))
  }

  lemma VerificationFacts(v: VerificationElement.Verification)
    ensures var r := MetaLines.Output(MetaLines.Tight, VerificationElement.Order(v));
            r == "" <==> v == VerificationElement.Verification(None, None, None, None, None, None)
    ensures (forall i :: 0 <= i < 6 ==> MetaLines.OptValue(VerificationElement.Values(v)[i])) ==>
              MetaLines.Read(MetaLines.Output(MetaLines.Tight, VerificationElement.Order(v)))
              == Some(MetaLines.Picked(MetaElement.Name, VerificationElement.Names, VerificationElement.Values(v)))
  {
    VerificationEmpty(v);
    if forall i :: 0 <= i < 6 ==> MetaLines.OptValue(VerificationElement.Values(v)[i]) {
      VerificationReads(v);
    }
  }

  lemma VerificationEmpty(v: VerificationElement.Verification)
    ensures MetaLines.Output(MetaLines.Tight, VerificationElement.Order(v)) == ""
            <==> v == VerificationElement.Verification(None, None, None, None, None, None)
  {
    VerificationElement.OutputEmpty(MetaLines.Tight, v);
  }

  lemma VerificationReads(v: VerificationElement.Verification)
    requires forall i :: 0 <= i < 6 ==> MetaLines.OptValue(VerificationElement.Values(v)[i])
    ensures MetaLines.Read(MetaLines.Output(MetaLines.Tight, VerificationElement.Order(v)))
            == Some(MetaLines.Picked(MetaElement.Name, VerificationElement.Names, VerificationElement.Values(v)))
  {
    VerificationElement.NamesGood();
    MetaLines.ReadSlots(MetaLines.Tight, MetaElement.Name, VerificationElement.Names, VerificationElement.Values(v));
  }
}
