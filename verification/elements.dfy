/** Every kind of live element a `Head` can hold, with the two class
    attributes `Head` consults — `key` and `unique` — and `str(element)`. */
module Elements {

  import opened Wrappers
  import TitleElement
  import BaseElement
  import CharsetElement
  import DescriptionElement
  import KeywordsElement
  import FaviconElement
  import GoogleElement
  import VerificationElement
  import OpenGraphWebsiteElement
  import TwitterCardElement
  import GeoPositionElement
  import FormatDetectionElement
  import SingleMeta
  import MetaElement
  import LinkElement
  import ScriptElement
  import StylesheetElement
  import SocialMediaCard

  datatype Element =
    | TitleOf(title: TitleElement.Title)
    | BaseOf(base: BaseElement.Base)
    | CharsetOf(charset: CharsetElement.Charset)
    | DescriptionOf(description: DescriptionElement.Description)
    | KeywordsOf(keywords: KeywordsElement.Keywords)
    | FaviconOf(favicon: FaviconElement.Favicon)
    | GoogleOf(google: GoogleElement.Google)
    | VerificationOf(verification: VerificationElement.Verification)
    | OpenGraphWebsiteOf(openGraphWebsite: OpenGraphWebsiteElement.OpenGraphWebsite)
    | TwitterCardOf(twitterCard: TwitterCardElement.TwitterCard)
    | GeoPositionOf(geoPosition: GeoPositionElement.GeoPosition)
    | FormatDetectionOf(formatDetection: FormatDetectionElement.FormatDetection)
    | SingleOf(single: SingleMeta.Single)
    | MetaOf(meta: MetaElement.Meta)
    | LinkOf(link: LinkElement.Link)
    | ScriptOf(script: ScriptElement.Script)
    | StylesheetOf(stylesheet: StylesheetElement.Stylesheet)
    | CardOf(card: SocialMediaCard.Card)

  /** The class an element is an instance of; the five single-meta classes are
      told apart by their purpose. */
  datatype Class =
    | TitleClass | BaseClass | CharsetClass | DescriptionClass | KeywordsClass | FaviconClass
    | GoogleClass | VerificationClass | OpenGraphWebsiteClass | TwitterCardClass | GeoPositionClass
    | FormatDetectionClass | SingleClass(purpose: SingleMeta.Purpose) | MetaClass | LinkClass
    | ScriptClass | StylesheetClass | CardClass

  function ClassOf(e: Element): Class
  {
    match e
    case TitleOf(_) => TitleClass
    case BaseOf(_) => BaseClass
    case CharsetOf(_) => CharsetClass
    case DescriptionOf(_) => DescriptionClass
    case KeywordsOf(_) => KeywordsClass
    case FaviconOf(_) => FaviconClass
    case GoogleOf(_) => GoogleClass
    case VerificationOf(_) => VerificationClass
    case OpenGraphWebsiteOf(_) => OpenGraphWebsiteClass
    case TwitterCardOf(_) => TwitterCardClass
    case GeoPositionOf(_) => GeoPositionClass
    case FormatDetectionOf(_) => FormatDetectionClass
    case SingleOf(s) => SingleClass(s.purpose)
    case MetaOf(_) => MetaClass
    case LinkOf(_) => LinkClass
    case ScriptOf(_) => ScriptClass
    case StylesheetOf(_) => StylesheetClass
    case CardOf(_) => CardClass
  }

  /** The `unique` class attribute: True for the one-per-page elements, False
      for `Meta`, `Link`, `Script` and `Stylesheet`; `SocialMediaCard` has none. */
  predicate Unique(e: Element)
  {
    !(e.MetaOf? || e.LinkOf? || e.ScriptOf? || e.StylesheetOf? || e.CardOf?)
  }

  /** The `key` a unique class declares. */
  function ClassKey(c: Class): string
  {
    match c
    case TitleClass => "title"
    case BaseClass => "base"
    case CharsetClass => "charset"
    case DescriptionClass => "description"
    case KeywordsClass => "keywords"
    case FaviconClass => "favicon"
    case GoogleClass => "google"
    case VerificationClass => "verification"
    case OpenGraphWebsiteClass => "open_graph_website"
    case TwitterCardClass => "twitter_card"
    case GeoPositionClass => "geo_position"
    case FormatDetectionClass => "format_detection"
    case SingleClass(ContentSecurityPolicy) => "content_security_policy"
    case SingleClass(ApplicationName) => "application_name"
    case SingleClass(ReferrerPolicy) => "referrer_policy"
    case SingleClass(ThemeColor) => "theme_color"
    case SingleClass(Robots) => "robots"
    case _ => ""
  }

  /** The `key` attribute, None when the class has none or it is None: the
      class key for unique elements, the formatted id for `Meta`, `Link` and
      `Script`, the raw id for `Stylesheet`. */
  function Key(e: Element): (k: Option<string>)
    ensures Unique(e) ==> k == Some(ClassKey(ClassOf(e)))
    ensures e.MetaOf? ==> k.Some? == e.meta.id.Some?
    ensures e.LinkOf? ==> k.Some? == e.link.id.Some?
    ensures e.ScriptOf? ==> k.Some? == e.script.id.Some?
    ensures e.StylesheetOf? ==> k == StylesheetElement.Key(e.stylesheet)
    ensures e.CardOf? ==> k.None?
  {
    match e
    case MetaOf(m) => MetaElement.Key(m)
    case LinkOf(l) => LinkElement.Key(l)
    case ScriptOf(s) => ScriptElement.Key(s)
    case StylesheetOf(s) => StylesheetElement.Key(s)
    case CardOf(_) => None
    case _ => Some(ClassKey(ClassOf(e)))
  }

  /** `str(element)`. */
  function Render(e: Element): string
  {
    match e
    case TitleOf(t) => TitleElement.Render(t)
    case BaseOf(b) => BaseElement.Render(b)
    case CharsetOf(c) => CharsetElement.Render(c)
    case DescriptionOf(d) => DescriptionElement.Render(d)
    case KeywordsOf(k) => KeywordsElement.Render(k)
    case FaviconOf(f) => FaviconElement.Compile(f)
    case GoogleOf(g) => GoogleElement.Compile(g)
    case VerificationOf(v) => VerificationElement.Compile(v)
    case OpenGraphWebsiteOf(o) => OpenGraphWebsiteElement.Compile(o)
    case TwitterCardOf(t) => TwitterCardElement.Compile(t)
    case GeoPositionOf(g) => GeoPositionElement.Compile(g)
    case FormatDetectionOf(f) => FormatDetectionElement.Compile(f)
    case SingleOf(s) => SingleMeta.Render(s)
    case MetaOf(m) => MetaElement.Render(m)
    case LinkOf(l) => LinkElement.Render(l)
    case ScriptOf(s) => ScriptElement.Render(s)
    case StylesheetOf(s) => StylesheetElement.Render(s)
    case CardOf(_) => SocialMediaCard.Repr
  }

  /** Two unique elements share a key exactly when they are of the same class,
      so a second instance of a class replaces the first in a `Head`. */
  lemma UniqueKeys(a: Element, b: Element)
    requires Unique(a) && Unique(b)
    ensures Key(a) == Key(b) <==> ClassOf(a) == ClassOf(b)
  {
    if ClassOf(a) != ClassOf(b) {
      KeysDiffer(ClassOf(a), ClassOf(b));
    }
  }

  predicate UniqueClass(c: Class)
  {
    !(c.MetaClass? || c.LinkClass? || c.ScriptClass? || c.StylesheetClass? || c.CardClass?)
  }

  lemma KeysDiffer(c: Class, d: Class)
    requires UniqueClass(c) && UniqueClass(d) && c != d
    ensures ClassKey(c) != ClassKey(d)
  {
  }

  /** A present key is never `""`, so `has_key` keeps every key the element
      has, and a unique element is always stored under its class key. */
  lemma KeysTruthy(e: Element)
    ensures Key(e).Some? ==> |Key(e).value| > 0
  {
  }
}
