/** The single-module `tags` of the first package: each tag a small class
    whose `__str__` writes it with single spaces between the attributes
    (`<meta name="N" content="C">`) and whose `replace`-style methods change
    the stored values. The keyword list and the multi-tag classes are in
    `FlatKeywords` and `FlatGoogle`. */
module FlatTags {

  import opened Wrappers
  import opened Text
  import opened Markup
  import MetaElement
  import SingleMeta
  import BaseTag
  import TitleTag
  import EarlyPackage

  // ---------------------------------------------------------------------------
  // MetaTag

  /** `MetaTag(name, content)`: always a `name=` tag with a content. */
  datatype MetaTag = MetaTag(name: string, content: string)

  /** The meta element the tag stands for. */
  function AsMeta(t: MetaTag): MetaElement.Meta
  {
    MetaElement.Meta(MetaElement.Name, t.name, Some(t.content), None)
  }

  /** `__str__`: the older single-spaced spelling of the element; it reads back
      as that element when neither value holds a double quote. */
  function Render(t: MetaTag): (r: string)
    ensures r == MetaElement.TightRender(AsMeta(t))
    ensures IsValue(t.name) && IsValue(t.content) ==> MetaElement.Decode(r) == Some(AsMeta(t))
  {
    if IsValue(t.name) && IsValue(t.content) then
      MetaElement.ContentOnly(MetaElement.Name, t.name, t.content);
      MetaElement.TightRender(AsMeta(t))
    else MetaElement.TightRender(AsMeta(t))
  }

  /** Spelled out, that is `<meta name="N" content="C">`. */
  lemma RenderText(t: MetaTag)
    ensures Render(t) == "<meta name=\"" + t.name + "\" content=\"" + t.content + "\">"
  {
    MetaElement.ContentOnlyText(MetaElement.Name, t.name, t.content);
  }

  /** `replace_content`: the tag then reads back with the new content and the
      same name. */
  function ReplaceContent(t: MetaTag, content: string): (u: MetaTag)
    ensures IsValue(t.name) && IsValue(content) ==>
              MetaElement.Decode(Render(u)) == Some(MetaElement.Meta(MetaElement.Name, t.name, Some(content), None))
  {
    MetaTag(t.name, content)
  }

  // ---------------------------------------------------------------------------
  // ContentSecurityPolicy

  /** The stored policy; `SingleMeta.DefaultPolicy` unless another is given. */
  datatype ContentSecurityPolicy = ContentSecurityPolicy(policy: string)

  function NewPolicy(policy: Option<string>): (c: ContentSecurityPolicy)
    ensures policy.None? ==> c.policy == "default-src 'self'"
    ensures policy.Some? ==> c.policy == policy.value
  {
    ContentSecurityPolicy(policy.GetOr(SingleMeta.DefaultPolicy))
  }

  /** `__str__` as written: the policy under `http-equiv="viewport"`. */
  function PolicyAsWritten(c: ContentSecurityPolicy): (r: string)
    ensures r == MetaElement.TightRender(MetaElement.Meta(MetaElement.HttpEquiv, "viewport", Some(c.policy), None))
  {
    MetaElement.ContentOnlyText(MetaElement.HttpEquiv, "viewport", c.policy);
    ViewportPrefix();
    "<meta http-equiv=\"viewport\" content=\"" + c.policy + "\">"
  }

  lemma ViewportPrefix()
    ensures "<meta " + MetaElement.KindAttr(MetaElement.HttpEquiv) + "=\"" + "viewport" + "\" content=\""
            == "<meta http-equiv=\"viewport\" content=\""
  {
  }

  /** What the class writes is read as a `viewport` directive, never as the
      content security policy the live element declares for the same value. */
  lemma PolicyAsWrittenMisnamed(c: ContentSecurityPolicy)
    requires IsValue(c.policy)
    ensures MetaElement.Decode(PolicyAsWritten(c)).Some?
    ensures MetaElement.Decode(PolicyAsWritten(c)).value.disc == "viewport"
    ensures MetaElement.Decode(PolicyAsWritten(c)).value != SingleMeta.AsMeta(SingleMeta.NewPolicy(Some(c.policy)))
  {
    MetaElement.ContentOnly(MetaElement.HttpEquiv, "viewport", c.policy);
    assert SingleMeta.AsMeta(SingleMeta.NewPolicy(Some(c.policy))).disc == "Content-Security-Policy";
  }

  /** `__str__` with the evidently intended `http-equiv`: the single-spaced
      spelling of the live element's tag, which reads back as that tag. */
  function RenderPolicy(c: ContentSecurityPolicy): (r: string)
    ensures r == MetaElement.TightRender(SingleMeta.AsMeta(SingleMeta.NewPolicy(Some(c.policy))))
    ensures IsValue(c.policy) ==> MetaElement.Decode(r) == Some(SingleMeta.AsMeta(SingleMeta.NewPolicy(Some(c.policy))))
  {
    var m := SingleMeta.AsMeta(SingleMeta.NewPolicy(Some(c.policy)));
    PolicyMeta(c.policy);
    if IsValue(c.policy) then
      MetaElement.ContentOnly(MetaElement.HttpEquiv, "Content-Security-Policy", c.policy);
      MetaElement.TightRender(m)
    else MetaElement.TightRender(m)
  }

  lemma PolicyMeta(policy: string)
    ensures SingleMeta.AsMeta(SingleMeta.NewPolicy(Some(policy)))
            == MetaElement.Meta(MetaElement.HttpEquiv, "Content-Security-Policy", Some(policy), None)
  {
  }

  /** `replace`: the tag then carries the new policy, whatever it held. */
  function ReplacePolicy(c: ContentSecurityPolicy, policy: string): (u: ContentSecurityPolicy)
    ensures RenderPolicy(u) == RenderPolicy(NewPolicy(Some(policy)))
    ensures IsValue(policy) ==> MetaElement.Decode(RenderPolicy(u)).value.content == Some(policy)
  {
    ContentSecurityPolicy(policy)
  }

  // ---------------------------------------------------------------------------
  // Base

  /** `Base`: the same tag as `BaseTag`; a replacement is seen exactly when
      the href changes. */
  lemma BaseReplaced(b: BaseTag.BaseTag, x: string, y: string)
    ensures BaseTag.Render(BaseTag.Replace(b, x)) == BaseTag.Render(BaseTag.Replace(b, y)) <==> x == y
  {
    var rx := BaseTag.Render(BaseTag.Replace(b, x));
    var ry := BaseTag.Render(BaseTag.Replace(b, y));
    if rx == ry {
      assert Unwrap(rx, "<base href=\"", "\">") == Some(x);
      assert Unwrap(ry, "<base href=\"", "\">") == Some(y);
    }
  }

  // ---------------------------------------------------------------------------
  // Title

  /** `Title`: the first package's title with the flag that leaves out the
      `<title>` wrapping. */
  datatype Title = Title(page: EarlyPackage.PageTitle, exclude: bool)

  /** `__str__`: what the later `TitleTag` writes for the same title and flag. */
  function RenderTitle(t: Title): (r: string)
    ensures r == TitleTag.Render(TitleTag.New(t.page.title, t.exclude))
    ensures !t.exclude ==> r == EarlyPackage.RenderTitle(t.page)
    ensures t.exclude ==> r == t.page.title
  {
    if t.exclude then t.page.title else "<title>" + t.page.title + "</title>"
  }

  /** `append`: one call writes what a `TitleTag` with that single append writes. */
  function Append(t: Title, more: string, sep: string): (u: Title)
    ensures RenderTitle(u) == TitleTag.Render(TitleTag.SetAppends(TitleTag.New(t.page.title, t.exclude), [TitleTag.Affix(more, sep)]))
    ensures u.exclude == t.exclude
  {
    var u := t.(page := EarlyPackage.Append(t.page, more, sep));
    var n := TitleTag.New(t.page.title, t.exclude);
    TitleTag.AppendOne(n, TitleTag.Affix(more, sep));
    assert TitleTag.Full(n) == t.page.title;
    assert n.appends + [TitleTag.Affix(more, sep)] == [TitleTag.Affix(more, sep)];
    u
  }

  /** `prepend`: one call writes what a `TitleTag` with that single prepend writes. */
  function Prepend(t: Title, more: string, sep: string): (u: Title)
    ensures RenderTitle(u) == TitleTag.Render(TitleTag.SetPrepends(TitleTag.New(t.page.title, t.exclude), [TitleTag.Affix(more, sep)]))
    ensures u.exclude == t.exclude
  {
    var u := t.(page := EarlyPackage.Prepend(t.page, more, sep));
    var n := TitleTag.New(t.page.title, t.exclude);
    TitleTag.PrependOne(n, TitleTag.Affix(more, sep));
    assert TitleTag.Full(n) == t.page.title;
    assert [TitleTag.Affix(more, sep)] + n.prepends == [TitleTag.Affix(more, sep)];
    u
  }

  // ---------------------------------------------------------------------------
  // ReferrerPolicy

  /** `ReferrerPolicy(content, fallback)`. */
  datatype ReferrerPolicy = ReferrerPolicy(content: string, fallback: Option<string>)

  /** The content written: the fallback and `", "` first when a fallback is
      given, then the policy. */
  function ReferrerContent(p: ReferrerPolicy): (v: string)
    ensures EndsWith(v, p.content)
    ensures p.fallback.None? ==> v == p.content
    ensures p.fallback.Some? ==> StartsWith(v, p.fallback.value + ", ")
                                 && |v| == |p.fallback.value| + 2 + |p.content|
  {
    match p.fallback
    case None =>
      EndsWithConcat("", p.content);
      assert "" + p.content == p.content;
      p.content
    case Some(f) =>
      EndsWithConcat(f + ", ", p.content);
      StartsWithConcat(f + ", ", p.content);
      f + ", " + p.content
  }

  /** `__str__`: a `name="referrer"` tag; it reads back with that content
      when neither value holds a double quote. */
  function RenderReferrer(p: ReferrerPolicy): (r: string)
    ensures r == MetaElement.TightRender(MetaElement.Meta(MetaElement.Name, "referrer", Some(ReferrerContent(p)), None))
    ensures IsValue(p.content) && (p.fallback.Some? ==> IsValue(p.fallback.value)) ==>
              MetaElement.Decode(r) == Some(MetaElement.Meta(MetaElement.Name, "referrer", Some(ReferrerContent(p)), None))
  {
    Render(MetaTag("referrer", ReferrerContentClean(p)))
  }

  /** The content is quote-free when its parts are; passes it through. */
  function ReferrerContentClean(p: ReferrerPolicy): (v: string)
    ensures v == ReferrerContent(p)
    ensures IsValue(p.content) && (p.fallback.Some? ==> IsValue(p.fallback.value)) ==> IsValue(v)
  {
    if p.fallback.Some? then
      assert ReferrerContent(p) == p.fallback.value + (", " + p.content);
      ReferrerContent(p)
    else ReferrerContent(p)
  }

  /** `replace_content`: both values are replaced, so leaving out the fallback
      drops any earlier one. */
  function ReplaceReferrer(p: ReferrerPolicy, content: string, fallback: Option<string>): (u: ReferrerPolicy)
    ensures fallback.None? ==> RenderReferrer(u) == RenderReferrer(ReferrerPolicy(content, None))
    ensures fallback.None? ==> ReferrerContent(u) == content
    ensures fallback.Some? ==> StartsWith(ReferrerContent(u), fallback.value + ", ")
  {
    ReferrerPolicy(content, fallback)
  }
}
