/** The five live elements that each write one meta tag through `Meta`:
    `ContentSecurityPolicy`, `ApplicationName`, `ReferrerPolicy`, `ThemeColor`
    and `Robots`. Each holds a content string and renders
    `Meta(<attribute>=<value>, content=C)`, trailing space included. */
module SingleMeta {

  import opened Wrappers
  import opened Text
  import opened Markup
  import MetaElement

  datatype Purpose = ContentSecurityPolicy | ApplicationName | ReferrerPolicy | ThemeColor | Robots

  /** An element of one of the five classes with its content. */
  datatype Single = Single(purpose: Purpose, content: string)

  /** The default of `ContentSecurityPolicy(content=...)`. */
  const DefaultPolicy := "default-src 'self'"

  /** `ContentSecurityPolicy(content)`: the only one of the five whose content
      may be omitted. */
  function NewPolicy(content: Option<string>): (s: Single)
    ensures s.purpose == ContentSecurityPolicy
    ensures content.None? ==> s.content == "default-src 'self'"
    ensures content.Some? ==> s.content == content.value
  {
    Single(ContentSecurityPolicy, content.GetOr(DefaultPolicy))
  }

  /** The attribute and value that name the tag. */
  function Target(p: Purpose): (MetaElement.Kind, string)
  {
    match p
    case ContentSecurityPolicy => (MetaElement.HttpEquiv, "Content-Security-Policy")
    case ApplicationName => (MetaElement.Name, "application_name")
    case ReferrerPolicy => (MetaElement.Name, "referrer")
    case ThemeColor => (MetaElement.Name, "theme-color")
    case Robots => (MetaElement.Name, "robots")
  }

  /** The meta element built in `_compile`/`compile`. */
  function AsMeta(s: Single): MetaElement.Meta
  {
    MetaElement.WithContent(Target(s.purpose).0, Target(s.purpose).1, s.content).value
  }

  /** `_compile` (`compile` for ThemeColor and Robots): the meta rendering,
      which reads back as the element's meta tag when the content is
      quote-free and always ends with `" >"`. */
  function Render(s: Single): (r: string)
    ensures EndsWith(r, " >")
    ensures IsValue(s.content) ==> MetaElement.Decode(r) == Some(AsMeta(s))
  {
    if IsValue(s.content) then
      AsMetaClean(s);
      MetaElement.DecodeRender(AsMeta(s));
      MetaElement.Render(AsMeta(s))
    else MetaElement.Render(AsMeta(s))
  }

  lemma TargetValue(p: Purpose)
    ensures IsValue(Target(p).1)
  {
    match p
    case ContentSecurityPolicy => assert '"' !in "Content-Security-Policy";
    case ApplicationName => assert '"' !in "application_name";
    case ReferrerPolicy => assert '"' !in "referrer";
    case ThemeColor => assert '"' !in "theme-color";
    case Robots => assert '"' !in "robots";
  }

  lemma AsMetaClean(s: Single)
    requires IsValue(s.content)
    ensures MetaElement.Clean(AsMeta(s))
  {
    TargetValue(s.purpose);
  }

  /** The text every element writes, given its attribute and value. */
  lemma Spelling(s: Single)
    ensures Render(s) == "<meta " + MetaElement.KindAttr(Target(s.purpose).0) + "=\""
                         + Target(s.purpose).1 + "\" " + "content=\"" + s.content + "\" " + ">"
  {
    MetaElement.ContentOnlySpaced(Target(s.purpose).0, Target(s.purpose).1, s.content);
  }

  /** `ContentSecurityPolicy` writes an `http-equiv` tag, by default with
      `default-src 'self'`. */
  lemma PolicyText(content: Option<string>)
    ensures Render(NewPolicy(content))
            == "<meta " + "http-equiv" + "=\"" + "Content-Security-Policy" + "\" " + "content=\"" + content.GetOr(DefaultPolicy) + "\" " + ">"
  {
    var c := content.GetOr(DefaultPolicy);
    assert NewPolicy(content) == Single(ContentSecurityPolicy, c);
    Spelling(Single(ContentSecurityPolicy, c));
    assert Target(ContentSecurityPolicy) == (MetaElement.HttpEquiv, "Content-Security-Policy");
    assert MetaElement.KindAttr(MetaElement.HttpEquiv) == "http-equiv";
  }

  /** `ApplicationName` names its tag with an underscore, `application_name`. */
  lemma ApplicationNameText(content: string)
    ensures Render(Single(ApplicationName, content))
            == "<meta " + "name" + "=\"" + "application_name" + "\" " + "content=\"" + content + "\" " + ">"
  {
    Spelling(Single(ApplicationName, content));
    assert Target(ApplicationName) == (MetaElement.Name, "application_name");
    assert MetaElement.KindAttr(MetaElement.Name) == "name";
  }

  /** `ReferrerPolicy` writes a `name="referrer"` tag. */
  lemma ReferrerPolicyText(content: string)
    ensures Render(Single(ReferrerPolicy, content))
            == "<meta " + "name" + "=\"" + "referrer" + "\" " + "content=\"" + content + "\" " + ">"
  {
    Spelling(Single(ReferrerPolicy, content));
    assert Target(ReferrerPolicy) == (MetaElement.Name, "referrer");
    assert MetaElement.KindAttr(MetaElement.Name) == "name";
  }

  /** `ThemeColor` writes a `name="theme-color"` tag. */
  lemma ThemeColorText(content: string)
    ensures Render(Single(ThemeColor, content))
            == "<meta " + "name" + "=\"" + "theme-color" + "\" " + "content=\"" + content + "\" " + ">"
  {
    Spelling(Single(ThemeColor, content));
    assert Target(ThemeColor) == (MetaElement.Name, "theme-color");
    assert MetaElement.KindAttr(MetaElement.Name) == "name";
  }

  /** `Robots` writes a `name="robots"` tag. */
  lemma RobotsText(content: string)
    ensures Render(Single(Robots, content))
            == "<meta " + "name" + "=\"" + "robots" + "\" " + "content=\"" + content + "\" " + ">"
  {
    Spelling(Single(Robots, content));
    assert Target(Robots) == (MetaElement.Name, "robots");
    assert MetaElement.KindAttr(MetaElement.Name) == "name";
  }
}
