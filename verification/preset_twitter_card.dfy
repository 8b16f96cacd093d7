/** The `TwitterCard` preset: the card tag, always, then the seven optional
    tags, each built as a `MetaTag`. Its constructor takes the arguments in
    the order the tags are written. */
module TwitterCardPreset {

  import opened Wrappers
  import MetaTag
  import TwitterCardElement

  /** The card type when none is passed. */
  const DefaultCard := "summary"

  /** The constructor, arguments in tag order. It describes the same tags as
      the live element given the same arguments in that element's order. */
  function New(card: string, siteAccount: Option<string>, creatorAccount: Option<string>,
               title: Option<string>, description: Option<string>, image: Option<string>,
               imageAlt: Option<string>, url: Option<string>): (t: TwitterCardElement.TwitterCard)
    ensures t == TwitterCardElement.New(Some(card), title, description, url, image, imageAlt,
                                        siteAccount, creatorAccount)
    ensures TwitterCardElement.Values(t) == [Some(card), siteAccount, creatorAccount, title,
                                             description, image, imageAlt, url]
  {
    TwitterCardElement.TwitterCard(card, siteAccount, creatorAccount, title, description, image, imageAlt, url)
  }

  /** With no card passed the preset writes what the live element writes by
      default. */
  lemma DefaultAsElement(siteAccount: Option<string>, creatorAccount: Option<string>,
                         title: Option<string>, description: Option<string>, image: Option<string>,
                         imageAlt: Option<string>, url: Option<string>)
    ensures New(DefaultCard, siteAccount, creatorAccount, title, description, image, imageAlt, url)
            == TwitterCardElement.New(None, title, description, url, image, imageAlt, siteAccount, creatorAccount)
  {
  }

  function Tags(t: TwitterCardElement.TwitterCard): (tags: seq<Option<MetaTag.MetaTag>>)
    ensures |tags| == 8 && tags[0].Some?
  {
    MetaTag.Wrap(TwitterCardElement.Order(t))
  }

  /** `_compile`: the preset writes what the live element writes, which is
      never empty because the card tag is always there. */
  function Compile(t: TwitterCardElement.TwitterCard): (r: string)
    ensures r == TwitterCardElement.Compile(t)
    ensures r != ""
  {
    MetaTag.OutputAsElement(TwitterCardElement.Order(t));
    TwitterCardElement.NeverEmpty(t);
    MetaTag.Output(Tags(t))
  }
}
