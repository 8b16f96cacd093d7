/** The live `Page` element: a bundle of the usual page-level elements which a
    `Head` unpacks into its own entries. */
module PageElement {

  import opened Wrappers
  import opened Registry
  import opened Elements
  import TitleElement
  import CharsetElement
  import MetaElement
  import KeywordsElement

  /** What the `keywords` argument can be: a `str`, a `list`, or a value of
      some other type, which adds nothing. */
  datatype KeywordsArg = Text(text: string) | List(items: seq<string>) | Other

  datatype Page = Page(e: Entries<Element>)

  const DefaultCharset := "utf-8"
  const DefaultViewport := "width=device-width, initial-scale=1"

  /** `Meta(name=name, content=content)`, which always passes validation. */
  function NamedMeta(name: string, content: string): (m: MetaElement.Meta)
    ensures MetaElement.New(Some(name), None, None, Some(content), None) == Success(m)
  {
    MetaElement.WithContent(MetaElement.Name, name, content).value
  }

  function OptionalMeta(key: string, content: Option<string>): Entries<Element>
  {
    if content.Some? then [(key, MetaOf(NamedMeta(key, content.value)))] else []
  }

  function KeywordsEntry(keywords: Option<KeywordsArg>): Entries<Element>
  {
    match keywords
    case Some(Text(s)) => [("keywords", KeywordsOf(KeywordsElement.New(Some(s), None)))]
    case Some(List(l)) => [("keywords", KeywordsOf(KeywordsElement.New(None, Some(l))))]
    case _ => []
  }

  /** The three entries every page has. */
  function Fixed(title: string, charset: Option<string>, viewport: Option<string>): Entries<Element>
  {
    [("title", TitleOf(TitleElement.Title(title))),
     ("charset", CharsetOf(CharsetElement.Charset(charset.GetOr(DefaultCharset)))),
     ("viewport", MetaOf(NamedMeta("viewport", viewport.GetOr(DefaultViewport))))]
  }

  /** Where each key of a page goes: title, charset, viewport, description,
      keywords, subject, rating. */
  function Rank(key: string): nat
  {
    if key == "title" then 0
    else if key == "charset" then 1
    else if key == "viewport" then 2
    else if key == "description" then 3
    else if key == "keywords" then 4
    else if key == "subject" then 5
    else if key == "rating" then 6
    else 7
  }

  /** The constructor. `charset` and `viewport` are None when the caller
      leaves them at their defaults. */
  function New(title: string, description: Option<string>, keywords: Option<KeywordsArg>,
               subject: Option<string>, rating: Option<string>, charset: Option<string>,
               viewport: Option<string>): (p: Page)
    ensures |p.e| >= 3
    ensures p.e[0] == ("title", TitleOf(TitleElement.Title(title)))
    ensures p.e[1] == ("charset", CharsetOf(CharsetElement.Charset(charset.GetOr(DefaultCharset))))
    ensures p.e[2] == ("viewport", MetaOf(NamedMeta("viewport", viewport.GetOr(DefaultViewport))))
    ensures Ranked(p.e)
  {
    var e := Fixed(title, charset, viewport) + OptionalMeta("description", description) + KeywordsEntry(keywords)
             + OptionalMeta("subject", subject) + OptionalMeta("rating", rating);
    EntriesRanked(title, description, keywords, subject, rating, charset, viewport);
    FixedFirst(Fixed(title, charset, viewport), e);
    Page(e)
  }

  lemma FixedFirst(f: Entries<Element>, e: Entries<Element>)
    requires |f| == 3 && |e| >= 3 && e[..3] == f
    ensures e[0] == f[0] && e[1] == f[1] && e[2] == f[2]
  {
    assert e[0] == e[..3][0] && e[1] == e[..3][1] && e[2] == e[..3][2];
  }

  /** The entries of a page are in rank order. */
  lemma EntriesRanked(title: string, description: Option<string>, keywords: Option<KeywordsArg>,
                      subject: Option<string>, rating: Option<string>, charset: Option<string>,
                      viewport: Option<string>)
    ensures Ranked(Fixed(title, charset, viewport) + OptionalMeta("description", description) + KeywordsEntry(keywords)
                   + OptionalMeta("subject", subject) + OptionalMeta("rating", rating))
  {
    var f := Fixed(title, charset, viewport);
    var d := OptionalMeta("description", description);
    var w := KeywordsEntry(keywords);
    var s := OptionalMeta("subject", subject);
    var r := OptionalMeta("rating", rating);
    FixedRanked(title, charset, viewport);
    RankLiterals();
    OptionalRank("description", description);
    KeywordsRank(keywords);
    OptionalRank("subject", subject);
    OptionalRank("rating", rating);
    RankedSnoc(f, d, 3);
    RankedSnoc(f + d, w, 4);
    RankedSnoc(f + d + w, s, 5);
    RankedSnoc(f + d + w + s, r, 6);
  }

  lemma FixedRanked(title: string, charset: Option<string>, viewport: Option<string>)
    ensures Ranked(Fixed(title, charset, viewport)) && Below(Fixed(title, charset, viewport), 3)
  {
    var f := Fixed(title, charset, viewport);
    assert Rank(f[0].0) == 0 && Rank(f[1].0) == 1 && Rank(f[2].0) == 2;
  }

  lemma RankLiterals()
    ensures Rank("description") == 3 && Rank("keywords") == 4 && Rank("subject") == 5 && Rank("rating") == 6
  {
  }

  lemma OptionalRank(key: string, content: Option<string>)
    ensures forall i :: 0 <= i < |OptionalMeta(key, content)| ==> OptionalMeta(key, content)[i].0 == key
  {
  }

  lemma KeywordsRank(keywords: Option<KeywordsArg>)
    ensures forall i :: 0 <= i < |KeywordsEntry(keywords)| ==> KeywordsEntry(keywords)[i].0 == "keywords"
  {
  }

  /** The keys come in strictly increasing rank. */
  predicate Ranked(es: Entries<Element>)
  {
    forall i, j :: 0 <= i < j < |es| ==> Rank(es[i].0) < Rank(es[j].0)
  }

  predicate Below(es: Entries<Element>, r: nat)
  {
    forall i :: 0 <= i < |es| ==> Rank(es[i].0) < r
  }

  /** Ranked entries below `r`, followed by at most one entry of rank `r`,
      are ranked and below `r + 1`. */
  lemma RankedSnoc(a: Entries<Element>, m: Entries<Element>, r: nat)
    requires Ranked(a) && Below(a, r)
    requires |m| <= 1 && forall i :: 0 <= i < |m| ==> Rank(m[i].0) == r
    ensures Ranked(a + m) && Below(a + m, r + 1)
  {
    var es := a + m;
    forall i | 0 <= i < |es| ensures Rank(es[i].0) <= r && (i < |a| ==> Rank(es[i].0) < r) {
      if i < |a| { assert es[i] == a[i]; } else { assert es[i] == m[i - |a|]; }
    }
  }

  /** Ranks strictly increase, so no key appears twice. */
  lemma RankedDistinct(es: Entries<Element>)
    requires Ranked(es)
    ensures Distinct(es)
  {
  }

  /** The description entry is there exactly when the argument is given, and
      holds `Meta(name="description", content=…)`. */
  lemma DescriptionEntry(title: string, description: Option<string>, keywords: Option<KeywordsArg>,
                         subject: Option<string>, rating: Option<string>, charset: Option<string>,
                         viewport: Option<string>)
    ensures var p := New(title, description, keywords, subject, rating, charset, viewport);
      Get(p.e, "description") == if description.Some? then Some(MetaOf(NamedMeta("description", description.value))) else None
  {
    var k := "description";
    var f := Fixed(title, charset, viewport);
    var d := OptionalMeta(k, description);
    var w := KeywordsEntry(keywords);
    var s := OptionalMeta("subject", subject);
    var r := OptionalMeta("rating", rating);
    FixedKeys(title, charset, viewport, k);
    OptionalKeys("rating", rating, k);
    OptionalKeys("subject", subject, k);
    KeywordsKeys(keywords, k);
    GetAppend(f + d + w + s, r, k);
    GetAppend(f + d + w, s, k);
    GetAppend(f + d, w, k);
    GetAppend(f, d, k);
  }

  /** The keywords entry is there exactly when the argument is a `str` or a
      `list`: `from_string` for the first, `from_list` for the second. */
  lemma KeywordsEntryIff(title: string, description: Option<string>, keywords: Option<KeywordsArg>,
                         subject: Option<string>, rating: Option<string>, charset: Option<string>,
                         viewport: Option<string>)
    ensures var p := New(title, description, keywords, subject, rating, charset, viewport);
      && (Get(p.e, "keywords").Some? <==> keywords.Some? && !keywords.value.Other?)
      && (keywords.Some? && keywords.value.Text? ==>
            Get(p.e, "keywords") == Some(KeywordsOf(KeywordsElement.New(Some(keywords.value.text), None))))
      && (keywords.Some? && keywords.value.List? ==>
            Get(p.e, "keywords") == Some(KeywordsOf(KeywordsElement.New(None, Some(keywords.value.items)))))
  {
    var k := "keywords";
    var f := Fixed(title, charset, viewport);
    var d := OptionalMeta("description", description);
    var w := KeywordsEntry(keywords);
    var s := OptionalMeta("subject", subject);
    var r := OptionalMeta("rating", rating);
    FixedKeys(title, charset, viewport, k);
    OptionalKeys("rating", rating, k);
    OptionalKeys("subject", subject, k);
    OptionalKeys("description", description, k);
    GetAppend(f + d + w + s, r, k);
    GetAppend(f + d + w, s, k);
    GetAppend(f + d, w, k);
    GetAppend(f, d, k);
  }

  /** The subject entry is there exactly when the argument is given. */
  lemma SubjectEntry(title: string, description: Option<string>, keywords: Option<KeywordsArg>,
                     subject: Option<string>, rating: Option<string>, charset: Option<string>,
                     viewport: Option<string>)
    ensures var p := New(title, description, keywords, subject, rating, charset, viewport);
      Get(p.e, "subject") == if subject.Some? then Some(MetaOf(NamedMeta("subject", subject.value))) else None
  {
    var k := "subject";
    var f := Fixed(title, charset, viewport);
    var d := OptionalMeta("description", description);
    var w := KeywordsEntry(keywords);
    var s := OptionalMeta(k, subject);
    var r := OptionalMeta("rating", rating);
    FixedKeys(title, charset, viewport, k);
    OptionalKeys("rating", rating, k);
    OptionalKeys("description", description, k);
    KeywordsKeys(keywords, k);
    GetAppend(f + d + w + s, r, k);
    GetAppend(f + d + w, s, k);
    GetAppend(f + d, w, k);
    GetAppend(f, d, k);
  }

  /** The rating entry is there exactly when the argument is given. */
  lemma RatingEntry(title: string, description: Option<string>, keywords: Option<KeywordsArg>,
                    subject: Option<string>, rating: Option<string>, charset: Option<string>,
                    viewport: Option<string>)
    ensures var p := New(title, description, keywords, subject, rating, charset, viewport);
      Get(p.e, "rating") == if rating.Some? then Some(MetaOf(NamedMeta("rating", rating.value))) else None
  {
    var k := "rating";
    var f := Fixed(title, charset, viewport);
    var d := OptionalMeta("description", description);
    var w := KeywordsEntry(keywords);
    var s := OptionalMeta("subject", subject);
    var r := OptionalMeta(k, rating);
    FixedKeys(title, charset, viewport, k);
    OptionalKeys("subject", subject, k);
    OptionalKeys("description", description, k);
    KeywordsKeys(keywords, k);
    GetAppend(f + d + w + s, r, k);
    GetAppend(f + d + w, s, k);
    GetAppend(f + d, w, k);
    GetAppend(f, d, k);
  }

  lemma FixedKeys(title: string, charset: Option<string>, viewport: Option<string>, k: string)
    requires Rank(k) > 2
    ensures !HasKey(Fixed(title, charset, viewport), k)
  {
  }

  lemma OptionalKeys(key: string, content: Option<string>, k: string)
    requires k != key
    ensures !HasKey(OptionalMeta(key, content), k)
  {
  }

  lemma KeywordsKeys(keywords: Option<KeywordsArg>, k: string)
    requires k != "keywords"
    ensures !HasKey(KeywordsEntry(keywords), k)
  {
  }
}
