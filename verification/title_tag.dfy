/** `TitleTag` of the `tags` package: a page title with lists of
    `(text, separator)` pairs around it. A prepend is written text first, then
    its separator; an append is written separator first, then its text. The
    whole is wrapped in `<title>` ... `</title>` unless the tag was built to
    leave the wrapping out. */
module TitleTag {

  import opened Wrappers
  import opened Text
  import TitleElement

  /** One `(text, separator)` pair. */
  datatype Affix = Affix(text: string, sep: string)

  datatype TitleTag = TitleTag(title: string, exclude: bool, prepends: seq<Affix>, appends: seq<Affix>)

  /** The prepends in list order, each as text then separator. */
  function Leading(ps: seq<Affix>): string
  {
    if |ps| == 0 then "" else ps[0].text + ps[0].sep + Leading(ps[1..])
  }

  /** The appends in list order, each as separator then text. */
  function Trailing(appends: seq<Affix>): string
  {
    if |appends| == 0 then "" else appends[0].sep + appends[0].text + Trailing(appends[1..])
  }

  /** The title text with its affixes, before any wrapping. */
  function Full(t: TitleTag): string
  {
    Leading(t.prepends) + t.title + Trailing(t.appends)
  }

  /** The constructor: no affixes, so the tag writes the bare title, or the
      live `Title` element's tag for it. */
  function New(title: string, exclude: bool): (t: TitleTag)
    ensures !exclude ==> Render(t) == TitleElement.Render(TitleElement.Title(title))
    ensures exclude ==> Render(t) == title
  {
    TitleTag(title, exclude, [], [])
  }

  /** `_compile`: the text with affixes, inside `<title>` ... `</title>` unless
      excluded. */
  function Render(t: TitleTag): (r: string)
    ensures t.exclude ==> r == Full(t)
    ensures !t.exclude ==> Unwrap(r, "<title>", "</title>") == Some(Full(t))
  {
    if t.exclude then Full(t)
    else
      UnwrapWrap("<title>", Full(t), "</title>");
      "<title>" + Full(t) + "</title>"
  }

  /** `set_appends`: the list replaces the previous one. What comes before the
      appends is left as it was, and the new appends follow it in order. */
  function SetAppends(t: TitleTag, appends: seq<Affix>): (u: TitleTag)
    ensures StartsWith(Full(u), Leading(t.prepends) + t.title)
    ensures Full(u)[|Leading(t.prepends) + t.title|..] == Trailing(appends)
    ensures u.exclude == t.exclude && u.prepends == t.prepends
  {
    var u := t.(appends := appends);
    StartsWithConcat(Leading(t.prepends) + t.title, Trailing(appends));
    u
  }

  /** `set_prepends`: the list replaces the previous one. What comes after the
      prepends is left as it was, and the new prepends lead it in order. */
  function SetPrepends(t: TitleTag, prepends: seq<Affix>): (u: TitleTag)
    ensures EndsWith(Full(u), t.title + Trailing(t.appends))
    ensures StartsWith(Full(u), Leading(prepends))
    ensures u.exclude == t.exclude && u.appends == t.appends
  {
    var u := t.(prepends := prepends);
    assert Full(u) == Leading(prepends) + (t.title + Trailing(t.appends));
    EndsWithConcat(Leading(prepends), t.title + Trailing(t.appends));
    StartsWithConcat(Leading(prepends), t.title + Trailing(t.appends));
    u
  }

  lemma {:induction false} LeadingConcat(a: seq<Affix>, b: seq<Affix>)
    ensures Leading(a + b) == Leading(a) + Leading(b)
    decreases |a|
  {
    if |a| == 0 {
      assert a + b == b;
    } else {
      assert (a + b)[0] == a[0];
      assert (a + b)[1..] == a[1..] + b;
      LeadingConcat(a[1..], b);
    }
  }

  lemma {:induction false} TrailingConcat(a: seq<Affix>, b: seq<Affix>)
    ensures Trailing(a + b) == Trailing(a) + Trailing(b)
    decreases |a|
  {
    if |a| == 0 {
      assert a + b == b;
    } else {
      assert (a + b)[0] == a[0];
      assert (a + b)[1..] == a[1..] + b;
      TrailingConcat(a[1..], b);
    }
  }

  /** One more append at the end of the list adds its separator and text at
      the end of the title text: the old one-call-at-a-time `append`. */
  lemma AppendOne(t: TitleTag, a: Affix)
    ensures Full(SetAppends(t, t.appends + [a])) == Full(t) + a.sep + a.text
  {
    TrailingConcat(t.appends, [a]);
    assert Trailing([a]) == a.sep + a.text;
  }

  /** One more prepend at the front of the list adds its text and separator at
      the start: the old one-call-at-a-time `prepend`. */
  lemma PrependOne(t: TitleTag, p: Affix)
    ensures Full(SetPrepends(t, [p] + t.prepends)) == p.text + p.sep + Full(t)
  {
    LeadingConcat([p], t.prepends);
    assert Leading([p]) == p.text + p.sep;
  }

  /** Wrapping is the only difference between the two ways of writing a tag. */
  lemma ExcludeUnwraps(t: TitleTag)
    ensures Render(t.(exclude := false)) == "<title>" + Render(t.(exclude := true)) + "</title>"
  {
  }
}
