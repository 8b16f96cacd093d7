/** The older `OpenGraphWebsite` preset: the same tags as the live element,
    each built as a `MetaTag`, with the locale defaulting to `en_US`. */
module OpenGraphWebsitePreset {

  import opened Wrappers
  import MetaTag
  import OpenGraphWebsiteElement

  const DefaultLocale := "en_US"

  /** The constructor, arguments in its own order: locale, title, image,
      image_alt, description, site_name, url. */
  function New(locale: string, title: Option<string>, image: Option<string>, imageAlt: Option<string>,
               description: Option<string>, siteName: Option<string>, url: Option<string>)
    : (o: OpenGraphWebsiteElement.OpenGraphWebsite)
    ensures o == OpenGraphWebsiteElement.New(Some(locale), siteName, title, description, url, image, imageAlt)
    ensures OpenGraphWebsiteElement.Values(o)[..2] == [Some("website"), Some(locale)]
  {
    OpenGraphWebsiteElement.OpenGraphWebsite(locale, siteName, title, description, url, image, imageAlt)
  }

  function Tags(o: OpenGraphWebsiteElement.OpenGraphWebsite): (tags: seq<Option<MetaTag.MetaTag>>)
    ensures |tags| == 8 && tags[0].Some? && tags[1].Some?
  {
    MetaTag.Wrap(OpenGraphWebsiteElement.Order(o))
  }

  /** `_compile`: the preset writes what the live element writes, never
      nothing. */
  function Compile(o: OpenGraphWebsiteElement.OpenGraphWebsite): (r: string)
    ensures r == OpenGraphWebsiteElement.Compile(o)
    ensures r != ""
  {
    MetaTag.OutputAsElement(OpenGraphWebsiteElement.Order(o));
    OpenGraphWebsiteElement.NeverEmpty(o);
    MetaTag.Output(Tags(o))
  }
}
