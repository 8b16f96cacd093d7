/** The live `Head` registry: an insertion-ordered map from keys to elements,
    filled from lists of elements (a `Page` is unpacked into its own entries),
    and compiled into the `<head>` contents, one element per line. */
module HeadRegistry {

  import opened Wrappers
  import opened Text
  import opened Registry
  import opened Elements
  import Helpers
  import TitleElement
  import StylesheetElement
  import PageElement

  /** One item of the list passed to `Head(...)` or `extend(...)`. */
  datatype Item = Single(element: Element) | Bundle(page: PageElement.Page)

  datatype Head = Head(e: Entries<Element>, title: Option<string>)

  /** A call either completes, or raises `AttributeError` after `e` has been
      updated — when the entry under `"title"` is not a `Title`, which only a
      `Stylesheet` with id `title` can cause. */
  datatype Outcome = Done(head: Head) | Raised(head: Head)

  /** `str(key if key else index)` with `key = has_key(element)`. */
  function StoreKey(e: Element, index: nat): (k: string)
    ensures Helpers.HasKey(Key(e)).Some? ==> k == Key(e).value
    ensures Helpers.HasKey(Key(e)).None? ==> k == DecimalString(index)
  {
    match Helpers.HasKey(Key(e))
    case Some(k) => k
    case None => DecimalString(index)
  }

  /** The body of the loop in `_loop_elements` for the item at `index`. */
  function Step(es: Entries<Element>, item: Item, index: nat): Entries<Element>
  {
    match item
    case Bundle(p) => UpsertAll(es, p.e)
    case Single(e) => Upsert(es, StoreKey(e, index), e)
  }

  /** The loop of `_loop_elements`: the items in order, indexed from 0. */
  function Loop(es: Entries<Element>, items: seq<Item>): Entries<Element>
    decreases |items|
  {
    if items == [] then es
    else Step(Loop(es, items[..|items| - 1]), items[|items| - 1], |items| - 1)
  }

  /** `_loop_elements`, with the `title` update after the loop. */
  function LoopElements(h: Head, items: seq<Item>): Outcome
  {
    var es := Loop(h.e, items);
    var entry := Get(es, "title");
    if entry.None? then Done(Head(es, h.title))
    else if entry.value.TitleOf? then Done(Head(es, Some(entry.value.title.text)))
    else Raised(Head(es, h.title))
  }

  /** `Head(elements)`. */
  function New(items: seq<Item>): Outcome
  {
    LoopElements(Head([], None), items)
  }

  /** `extend(elements)`: the same loop on the existing head, which is returned. */
  function Extend(h: Head, items: seq<Item>): Outcome
  {
    LoopElements(h, items)
  }

  /** The renderings `compile` collects: every entry in order, except the one
      under `"title"` when `skipTitle` is set. */
  function Renders(es: Entries<Element>, skipTitle: bool): (rs: seq<string>)
    ensures |rs| <= |es|
  {
    if es == [] then []
    else if es[0].0 == "title" && skipTitle then Renders(es[1..], skipTitle)
    else [Render(es[0].1)] + Renders(es[1..], skipTitle)
  }

  /** `compile(skip_title)`. */
  function Compile(h: Head, skipTitle: bool): string
  {
    Join(Renders(h.e, skipTitle), "\n")
  }

  // ---------------------------------------------------------------------------
  // Keys

  /** The loop keeps keys distinct. */
  lemma {:induction false} LoopDistinct(es: Entries<Element>, items: seq<Item>)
    requires Distinct(es)
    ensures Distinct(Loop(es, items))
    decreases |items|
  {
    if items != [] {
      var before := Loop(es, items[..|items| - 1]);
      LoopDistinct(es, items[..|items| - 1]);
      match items[|items| - 1]
      case Bundle(p) => UpsertAllDistinct(before, p.e);
      case Single(e) => UpsertDistinct(before, StoreKey(e, |items| - 1), e);
    }
  }

  /** Whatever the outcome, a head's keys stay distinct. */
  lemma OutcomeDistinct(h: Head, items: seq<Item>)
    requires Distinct(h.e)
    ensures Distinct(Extend(h, items).head.e)
  {
    LoopDistinct(h.e, items);
  }

  /** The loop never moves or removes an existing key: updating a key keeps its
      original position, and new keys go to the end. */
  lemma {:induction false} LoopKeepsPositions(es: Entries<Element>, items: seq<Item>)
    ensures |es| <= |Loop(es, items)|
    ensures forall i :: 0 <= i < |es| ==> Loop(es, items)[i].0 == es[i].0
    decreases |items|
  {
    if items != [] {
      var before := Loop(es, items[..|items| - 1]);
      LoopKeepsPositions(es, items[..|items| - 1]);
      match items[|items| - 1]
      case Bundle(p) => UpsertAllKeys(before, p.e);
      case Single(e) => UpsertKeys(before, StoreKey(e, |items| - 1), e);
    }
  }

  /** `extend` keeps every earlier entry's key, in place. */
  lemma ExtendKeepsPositions(h: Head, items: seq<Item>, i: int)
    requires 0 <= i < |h.e|
    ensures |h.e| <= |Extend(h, items).head.e|
    ensures Extend(h, items).head.e[i].0 == h.e[i].0
  {
    LoopKeepsPositions(h.e, items);
  }

  /** The last element of a call is found under its key — its own key when it
      has a truthy one, otherwise the decimal text of its index. */
  lemma LastStored(es: Entries<Element>, items: seq<Item>, e: Element)
    requires items != [] && items[|items| - 1] == Single(e)
    ensures Get(Loop(es, items), StoreKey(e, |items| - 1)) == Some(e)
  {
    UpsertGet(Loop(es, items[..|items| - 1]), StoreKey(e, |items| - 1), e, StoreKey(e, |items| - 1));
  }

  /** Indices restart at 0 on every call: an unkeyed element given first to a
      later `extend` replaces, in place, the unkeyed element given first to an
      earlier call. */
  lemma IndexRestart(h: Head, a: Element, b: Element)
    requires Distinct(h.e)
    requires Key(a).None? && Key(b).None?
    requires Extend(h, [Single(a)]).Done?
    ensures var h1 := Extend(h, [Single(a)]).head;
      && Get(Extend(h1, [Single(b)]).head.e, "0") == Some(b)
      && |Extend(h1, [Single(b)]).head.e| == |h1.e|
  {
    var h1 := Extend(h, [Single(a)]).head;
    ExtendEntries(h, [Single(a)]);
    ExtendEntries(h1, [Single(b)]);
    LoopOne(h.e, a);
    LoopOne(h1.e, b);
    assert h1.e == Upsert(h.e, "0", a);
    UpsertGet(h.e, "0", a, "0");
    UpsertDistinct(h.e, "0", a);
    UpsertGet(h1.e, "0", b, "0");
    assert HasKey(h1.e, "0");
    var i :| 0 <= i < |h1.e| && h1.e[i].0 == "0";
    UpsertInPlace(h1.e, "0", b, i);
  }

  /** Whatever the outcome, the entries are those the loop leaves. */
  lemma ExtendEntries(h: Head, items: seq<Item>)
    ensures Extend(h, items).head.e == Loop(h.e, items)
  {
  }

  /** A call with one unkeyed element stores it under `"0"`. */
  lemma LoopOne(es: Entries<Element>, e: Element)
    requires Key(e).None?
    ensures Loop(es, [Single(e)]) == Upsert(es, "0", e)
  {
    assert [Single(e)][..0] == [];
    assert StoreKey(e, 0) == "0";
  }

  /** A `Page` is never stored itself: each of its entries reads back under its
      own key, and every key the page lacks — an earlier description, say —
      reads as before. */
  lemma PageUnpacked(es: Entries<Element>, p: PageElement.Page, index: nat, k: string, j: int)
    requires Distinct(p.e) && !HasKey(p.e, k) && 0 <= j < |p.e|
    ensures Get(Step(es, Bundle(p), index), k) == Get(es, k)
    ensures Get(Step(es, Bundle(p), index), p.e[j].0) == Some(p.e[j].1)
  {
    UpsertAllKeepsAny(es, p.e, k);
    UpsertAllGet(es, p.e, j);
  }

  // ---------------------------------------------------------------------------
  // The title attribute

  /** A call ending with a `Title` sets `title` to its text. */
  lemma TitleFromLast(h: Head, items: seq<Item>, t: TitleElement.Title)
    requires items != [] && items[|items| - 1] == Single(TitleOf(t))
    ensures Extend(h, items) == Done(Head(Loop(h.e, items), Some(t.text)))
  {
    LastStored(h.e, items, TitleOf(t));
  }

  /** A call that leaves no `"title"` entry keeps the prior `title`, which is
      None for a new head. */
  lemma TitleKept(h: Head, items: seq<Item>)
    requires !HasKey(Loop(h.e, items), "title")
    ensures Extend(h, items) == Done(Head(Loop(h.e, items), h.title))
  {
  }

  /** A `Stylesheet` with id `title`, given last, takes the `"title"` entry and
      the title update then raises `AttributeError`. */
  lemma StylesheetTitleRaises(h: Head, items: seq<Item>, href: string)
    requires items != [] && items[|items| - 1] == Single(StylesheetOf(StylesheetElement.Stylesheet(href, Some("title"))))
    ensures Extend(h, items).Raised?
  {
    LastStored(h.e, items, items[|items| - 1].element);
  }

  // ---------------------------------------------------------------------------
  // compile

  /** With `skip_title` unset every entry contributes one segment, empty
      renderings included; with it set only the `"title"` entry is left out. */
  lemma {:induction false} RendersCount(es: Entries<Element>, skipTitle: bool)
    requires Distinct(es)
    ensures |Renders(es, skipTitle)| == |es| - (if skipTitle && HasKey(es, "title") then 1 else 0)
    decreases |es|
  {
    if es != [] {
      HasKeyTail(es, "title");
      assert Distinct(es[1..]) by {
        forall i, j | 0 <= i < j < |es[1..]| ensures es[1..][i].0 != es[1..][j].0 {
          assert es[1..][i] == es[i + 1] && es[1..][j] == es[j + 1];
        }
      }
      if es[0].0 == "title" {
        assert !HasKey(es[1..], "title") by {
          forall i | 0 <= i < |es[1..]| ensures es[1..][i].0 != "title" {
            assert es[1..][i] == es[i + 1];
          }
        }
      }
      RendersCount(es[1..], skipTitle);
    }
  }

  /** The output has one newline between each two segments plus those inside
      the renderings, so an entry rendering `""` still leaves a blank line. */
  lemma CompileNewlines(h: Head, skipTitle: bool)
    requires Distinct(h.e)
    requires |h.e| - (if skipTitle && HasKey(h.e, "title") then 1 else 0) > 0
    ensures Count(Compile(h, skipTitle), '\n')
            == |h.e| - (if skipTitle && HasKey(h.e, "title") then 1 else 0) - 1
               + CountAll(Renders(h.e, skipTitle), '\n')
  {
    RendersCount(h.e, skipTitle);
    JoinCount(Renders(h.e, skipTitle), '\n');
    assert [('\n')] == "\n";
  }

  /** When no rendering spans lines, splitting the output on newlines gives the
      renderings back, in map order. */
  lemma CompileSplit(h: Head, skipTitle: bool)
    requires Renders(h.e, skipTitle) != []
    requires forall i :: 0 <= i < |Renders(h.e, skipTitle)| ==> '\n' !in Renders(h.e, skipTitle)[i]
    ensures Split(Compile(h, skipTitle), '\n') == Renders(h.e, skipTitle)
  {
    SplitJoin(Renders(h.e, skipTitle), '\n');
    assert [('\n')] == "\n";
  }

  /** An empty head compiles to `""`, and a new head from no items is empty. */
  lemma CompileEmpty(skipTitle: bool)
    ensures New([]) == Done(Head([], None))
    ensures Compile(Head([], None), skipTitle) == ""
  {
  }
}
