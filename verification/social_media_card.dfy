/** The live `SocialMediaCard` element: one set of arguments fanned out to a
    `TwitterCard` and an `OpenGraphWebsite`, held in that order. */
module SocialMediaCard {

  import opened Wrappers
  import TwitterCardElement
  import OpenGraphWebsiteElement

  /** The two children of `e`, under `"twitter_card"` and
      `"open_graph_website"`. */
  datatype Card = Card(twitterCard: TwitterCardElement.TwitterCard,
                       openGraphWebsite: OpenGraphWebsiteElement.OpenGraphWebsite)

  const DefaultCard := "summary_large_image"
  const DefaultLocale := "en_US"

  /** The constructor: title, description, url, image and image_alt go to both
      children; card and the two accounts only to the Twitter card; site_name
      and locale only to the Open Graph one. */
  function New(card: Option<string>, title: Option<string>, description: Option<string>, url: Option<string>,
               image: Option<string>, imageAlt: Option<string>, siteAccount: Option<string>,
               creatorAccount: Option<string>, siteName: Option<string>, locale: Option<string>): (c: Card)
    ensures c.twitterCard.card == card.GetOr(DefaultCard)
    ensures c.openGraphWebsite.locale == locale.GetOr(DefaultLocale)
    ensures c.twitterCard.title == title == c.openGraphWebsite.title
    ensures c.twitterCard.description == description == c.openGraphWebsite.description
    ensures c.twitterCard.url == url == c.openGraphWebsite.url
    ensures c.twitterCard.image == image == c.openGraphWebsite.image
    ensures c.twitterCard.imageAlt == imageAlt == c.openGraphWebsite.imageAlt
    ensures c.twitterCard.site == siteAccount && c.twitterCard.creator == creatorAccount
    ensures c.openGraphWebsite.siteName == siteName
  {
    Card(TwitterCardElement.New(Some(card.GetOr(DefaultCard)), title, description, url, image, imageAlt,
                                siteAccount, creatorAccount),
         OpenGraphWebsiteElement.New(Some(locale.GetOr(DefaultLocale)), siteName, title, description, url,
                                     image, imageAlt))
  }

  /** What `str` gives for a card: the class defines no `__str__`, so its
      `__repr__`. */
  const Repr := "<SocialMediaCard ...>"
}
