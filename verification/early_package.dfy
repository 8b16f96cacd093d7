/** The first release of the package (version 0.2): a `Head` holding a page
    title, an optional description and optional keywords, written one tag per
    line. The title grows by `append` and `prepend` calls, each adding one
    piece and its separator; writing keywords that were never set raises
    `TypeError`. */
module EarlyPackage {

  import opened Wrappers
  import opened Text
  import TitleElement
  import TitleTag
  import DescriptionElement
  import KeywordsElement
  import KeywordsPreset

  // ---------------------------------------------------------------------------
  // PageTitle

  datatype PageTitle = PageTitle(title: string)

  /** `__str__`: the title between `<title>` and `</title>`, as the live `Title`
      element writes it. */
  function RenderTitle(t: PageTitle): (r: string)
    ensures r == TitleElement.Render(TitleElement.Title(t.title))
    ensures Unwrap(r, "<title>", "</title>") == Some(t.title)
  {
    "<title>" + t.title + "</title>"
  }

  /** `replace`: the old title is gone. */
  function ReplaceTitle(t: PageTitle, title: string): (u: PageTitle)
    ensures Unwrap(RenderTitle(u), "<title>", "</title>") == Some(title)
  {
    PageTitle(title)
  }

  /** `append`: the old title, the separator, the new piece. */
  function Append(t: PageTitle, more: string, sep: string): (u: PageTitle)
    ensures StartsWith(u.title, t.title) && EndsWith(u.title, more)
    ensures |u.title| == |t.title| + |sep| + |more| && u.title[|t.title|..|t.title| + |sep|] == sep
  {
    var u := PageTitle(t.title + sep + more);
    StartsWithConcat(t.title, sep + more);
    EndsWithConcat(t.title + sep, more);
    assert u.title == t.title + (sep + more);
    u
  }

  /** `prepend`: the new piece, the separator, the old title. */
  function Prepend(t: PageTitle, more: string, sep: string): (u: PageTitle)
    ensures StartsWith(u.title, more) && EndsWith(u.title, t.title)
    ensures |u.title| == |more| + |sep| + |t.title| && u.title[|more|..|more| + |sep|] == sep
  {
    var u := PageTitle(more + sep + t.title);
    StartsWithConcat(more, sep + t.title);
    EndsWithConcat(more + sep, t.title);
    assert u.title == more + (sep + t.title);
    u
  }

  /** `append` called once per pair, in list order. */
  function AppendAll(t: PageTitle, affixes: seq<TitleTag.Affix>): PageTitle
  {
    if |affixes| == 0 then t
    else
      var last := affixes[|affixes| - 1];
      Append(AppendAll(t, affixes[..|affixes| - 1]), last.text, last.sep)
  }

  /** `prepend` called once per pair, in list order. */
  function PrependAll(t: PageTitle, affixes: seq<TitleTag.Affix>): PageTitle
  {
    if |affixes| == 0 then t
    else
      var last := affixes[|affixes| - 1];
      Prepend(PrependAll(t, affixes[..|affixes| - 1]), last.text, last.sep)
  }

  function Reversed<T>(s: seq<T>): (r: seq<T>)
    ensures |r| == |s|
  {
    if |s| == 0 then [] else [s[|s| - 1]] + Reversed(s[..|s| - 1])
  }

  /** A run of `append` calls builds what the later `TitleTag` builds from the
      same pairs as its appends list. */
  lemma {:induction false} AppendsAsTitleTag(title: string, affixes: seq<TitleTag.Affix>)
    ensures AppendAll(PageTitle(title), affixes).title
            == TitleTag.Full(TitleTag.SetAppends(TitleTag.New(title, false), affixes))
    decreases |affixes|
  {
    if |affixes| > 0 {
      var front := affixes[..|affixes| - 1];
      var last := affixes[|affixes| - 1];
      AppendsAsTitleTag(title, front);
      TitleTag.TrailingConcat(front, [last]);
      assert front + [last] == affixes;
      assert TitleTag.Trailing([last]) == last.sep + last.text;
    }
  }

  /** A run of `prepend` calls builds what the later `TitleTag` builds from the
      same pairs in reverse order: the last piece prepended comes first. */
  lemma {:induction false} PrependsAsTitleTag(title: string, affixes: seq<TitleTag.Affix>)
    ensures PrependAll(PageTitle(title), affixes).title
            == TitleTag.Full(TitleTag.SetPrepends(TitleTag.New(title, false), Reversed(affixes)))
    decreases |affixes|
  {
    if |affixes| > 0 {
      var front := affixes[..|affixes| - 1];
      var last := affixes[|affixes| - 1];
      PrependsAsTitleTag(title, front);
      TitleTag.LeadingConcat([last], Reversed(front));
      assert TitleTag.Leading([last]) == last.text + last.sep;
    }
  }

  // ---------------------------------------------------------------------------
  // PageDescription

  datatype PageDescription = PageDescription(text: string)

  /** `__str__`: the description meta tag as the live element writes it. */
  function RenderDescription(d: PageDescription): (r: string)
    ensures r == DescriptionElement.Render(DescriptionElement.Description(d.text))
    ensures Unwrap(r, "<meta name=\"description\" content=\"", "\">") == Some(d.text)
  {
    UnwrapWrap("<meta name=\"description\" content=\"", d.text, "\">");
    "<meta name=\"description\" content=\"" + d.text + "\">"
  }

  // ---------------------------------------------------------------------------
  // Head

  /** The argument of `set_page_keywords`: a string, a list, or anything else. */
  datatype KeywordsArg = FromString(s: string) | FromList(ks: seq<string>) | Other

  datatype Head = Head(title: PageTitle, description: Option<PageDescription>,
                       keywords: Option<KeywordsPreset.Keywords>)

  /** The constructor: only the title; it writes the title tag alone. */
  function New(title: string): (h: Head)
    ensures Render(h) == Success(TitleElement.Render(TitleElement.Title(title)))
  {
    Head(PageTitle(title), None, None)
  }

  /** `set_page_title`: the title is replaced in place. */
  function SetPageTitle(h: Head, title: string): (u: Head)
    ensures u.title == ReplaceTitle(h.title, title)
    ensures u.description == h.description && u.keywords == h.keywords
  {
    h.(title := PageTitle(title))
  }

  /** `set_page_description`: a new description replaces any earlier one. */
  function SetPageDescription(h: Head, text: string): (u: Head)
    ensures u.description.Some? && RenderDescription(u.description.value) == DescriptionElement.Render(DescriptionElement.Description(text))
    ensures u.title == h.title && u.keywords == h.keywords
  {
    h.(description := Some(PageDescription(text)))
  }

  /** `set_page_keywords`: fresh keywords, set from a string or a list; any
      other argument leaves them unset, so the head can no longer be written. */
  function SetPageKeywords(h: Head, arg: KeywordsArg): (u: Head)
    ensures u.keywords.Some? && u.title == h.title && u.description == h.description
    ensures arg.Other? ==> Render(u) == Failure(KeywordsPreset.TypeError)
    ensures arg.FromList? ==> KeywordsPreset.Render(u.keywords.value)
                              == Success(KeywordsElement.Render(KeywordsElement.New(None, Some(arg.ks))))
    ensures arg.FromString? ==> u.keywords.value.items.Some? && Join(u.keywords.value.items.value, ",") == ReplaceAll(arg.s, " ", "")
  {
    var k := KeywordsPreset.NewUnset();
    match arg
    case FromString(s) => h.(keywords := Some(KeywordsPreset.SetFromString(k, s)))
    case FromList(ks) => h.(keywords := Some(KeywordsPreset.SetFromList(k, ks)))
    case Other => h.(keywords := Some(k))
  }

  /** The lines `__str__` joins: the title, then the description and the
      keywords when set; `TypeError` when keywords are set but hold None. */
  function Lines(h: Head): (r: Result<seq<string>, KeywordsPreset.KeywordsError>)
    ensures r.Success? <==> h.keywords.None? || h.keywords.value.items.Some?
    ensures r.Success? ==> |r.value| == 1 + (if h.description.Some? then 1 else 0) + (if h.keywords.Some? then 1 else 0)
    ensures r.Success? ==> r.value[0] == RenderTitle(h.title)
    ensures r.Success? && h.description.Some? ==> r.value[1] == RenderDescription(h.description.value)
    ensures r.Success? && h.keywords.Some? ==> r.value[|r.value| - 1] == KeywordsPreset.Render(h.keywords.value).value
  {
    var front := [RenderTitle(h.title)] + (if h.description.Some? then [RenderDescription(h.description.value)] else []);
    match h.keywords
    case None => Success(front)
    case Some(k) =>
      match KeywordsPreset.Render(k)
      case Failure(e) => Failure(e)
      case Success(line) => Success(front + [line])
  }

  /** `__str__`: the lines joined by newlines. */
  function Render(h: Head): (r: Result<string, KeywordsPreset.KeywordsError>)
    ensures r.Success? <==> Lines(h).Success?
  {
    match Lines(h)
    case Failure(e) => Failure(e)
    case Success(ls) => Success(Join(ls, "\n"))
  }

  /** No part of the head holds a newline. */
  predicate OneLine(h: Head)
  {
    '\n' !in h.title.title &&
    (h.description.Some? ==> '\n' !in h.description.value.text) &&
    (h.keywords.Some? && h.keywords.value.items.Some? ==>
       forall i :: 0 <= i < |h.keywords.value.items.value| ==> '\n' !in h.keywords.value.items.value[i])
  }

  /** When nothing holds a newline, the output splits back into its lines: the
      title tag first, then the description and keywords tags that are set. */
  lemma RenderSplit(h: Head)
    requires Render(h).Success? && OneLine(h)
    ensures Split(Render(h).value, '\n') == Lines(h).value
  {
    LinesOneLine(h);
    SplitJoin(Lines(h).value, '\n');
  }

  lemma LinesOneLine(h: Head)
    requires Lines(h).Success? && OneLine(h)
    ensures forall i :: 0 <= i < |Lines(h).value| ==> '\n' !in Lines(h).value[i]
  {
    var t := RenderTitle(h.title);
    TitleOneLine(h.title);
    var front := [t] + (if h.description.Some? then [RenderDescription(h.description.value)] else []);
    if h.description.Some? {
      DescriptionOneLine(h.description.value);
    }
    assert forall i :: 0 <= i < |front| ==> '\n' !in front[i];
    if h.keywords.Some? {
      KeywordsOneLine(h.keywords.value);
      assert Lines(h).value == front + [KeywordsPreset.Render(h.keywords.value).value];
    } else {
      assert Lines(h).value == front;
    }
  }

  lemma TitleOneLine(t: PageTitle)
    requires '\n' !in t.title
    ensures '\n' !in RenderTitle(t)
  {
  }

  lemma DescriptionOneLine(d: PageDescription)
    requires '\n' !in d.text
    ensures '\n' !in RenderDescription(d)
  {
    var p := "<meta name=\"description\" content=\"";
    assert forall i :: 0 <= i < |p| ==> p[i] != '\n';
  }

  lemma KeywordsOneLine(k: KeywordsPreset.Keywords)
    requires k.items.Some?
    requires forall i :: 0 <= i < |k.items.value| ==> '\n' !in k.items.value[i]
    ensures '\n' !in KeywordsPreset.Render(k).value
  {
    var c := Join(k.items.value, ", ");
    JoinFree(k.items.value, ", ", '\n');
    var r := KeywordsPreset.Render(k).value;
    assert Unwrap(r, KeywordsPreset.Prefix, "\">") == Some(c);
    assert r == KeywordsPreset.Prefix + c + "\">";
    PrefixOneLine();
  }

  lemma PrefixOneLine()
    ensures '\n' !in KeywordsPreset.Prefix
  {
    var p := KeywordsPreset.Prefix;
    assert forall i :: 0 <= i < |p| ==> p[i] != '\n';
  }
}
