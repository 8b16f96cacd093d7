/** The live `TwitterCard` element: a `twitter:card` meta tag, always, then
    `twitter:site`, `twitter:creator`, `twitter:title`, `twitter:description`,
    `twitter:image`, `twitter:image:alt` and `twitter:url`, each when given. */
module TwitterCardElement {

  import opened Wrappers
  import MetaElement
  import MetaLines

  datatype TwitterCard = TwitterCard(card: string, site: Option<string>, creator: Option<string>,
                                     title: Option<string>, description: Option<string>, image: Option<string>,
                                     imageAlt: Option<string>, url: Option<string>)

  /** The constructor, whose arguments come in a different order from the
      tags: card (by default `summary`), title, description, url, image,
      image_alt, site_account, creator_account. */
  function New(card: Option<string>, title: Option<string>, description: Option<string>, url: Option<string>,
               image: Option<string>, imageAlt: Option<string>, siteAccount: Option<string>,
               creatorAccount: Option<string>): (t: TwitterCard)
    ensures card.None? ==> t.card == "summary"
    ensures card.Some? ==> t.card == card.value
    ensures t.site == siteAccount && t.creator == creatorAccount
    ensures t.title == title && t.description == description && t.url == url
    ensures t.image == image && t.imageAlt == imageAlt
  {
    TwitterCard(card.GetOr("summary"), siteAccount, creatorAccount, title, description, image, imageAlt, url)
  }

  /** The `name` of each slot's tag, in `_order`. */
  const Names: seq<string> := ["twitter:card", "twitter:site", "twitter:creator", "twitter:title",
                               "twitter:description", "twitter:image", "twitter:image:alt", "twitter:url"]

  function Values(t: TwitterCard): seq<Option<string>>
  {
    [Some(t.card), t.site, t.creator, t.title, t.description, t.image, t.imageAlt, t.url]
  }

  function Order(t: TwitterCard): (slots: seq<Option<MetaElement.Meta>>)
    ensures |slots| == 8
  {
    MetaLines.Slots(MetaElement.Name, Names, Values(t))
  }

  /** `_compile`. */
  function Compile(t: TwitterCard): string
  {
    MetaLines.Output(MetaLines.Spaced, Order(t))
  }

  lemma NamesGood()
    ensures forall i :: 0 <= i < |Names| ==> MetaLines.Value(Names[i])
  {
    assert MetaLines.Value(Names[0]);
    assert MetaLines.Value(Names[1]);
    assert MetaLines.Value(Names[2]);
    assert MetaLines.Value(Names[3]);
    assert MetaLines.Value(Names[4]);
    assert MetaLines.Value(Names[5]);
    assert MetaLines.Value(Names[6]);
    assert MetaLines.Value(Names[7]);
  }

  /** The output reads back as the card tag followed by one tag per given
      field, in the fixed order; all use `name=`. */
  lemma CompileReads(t: TwitterCard)
    requires forall i :: 0 <= i < 8 ==> MetaLines.OptValue(Values(t)[i])
    ensures MetaLines.Read(Compile(t)) == Some(MetaLines.Picked(MetaElement.Name, Names, Values(t)))
    ensures MetaLines.Picked(MetaElement.Name, Names, Values(t))[0]
            == MetaElement.Meta(MetaElement.Name, "twitter:card", Some(t.card), None)
  {
    NamesGood();
    MetaLines.ReadSlots(MetaLines.Spaced, MetaElement.Name, Names, Values(t));
  }

  /** The card tag is always written, so the output is never empty. */
  lemma NeverEmpty(t: TwitterCard)
    ensures Compile(t) != ""
  {
    MetaLines.SlotsEmpty(MetaLines.Spaced, MetaElement.Name, Names, Values(t));
    assert Values(t)[0].Some?;
  }
}
