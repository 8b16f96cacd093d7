/** Favicon-style elements: a table of icon slots, each turning a truthy href
    into one link tag carrying that slot's `rel`, `sizes` and `type`; the output
    is those links, in table order, one per line. `Read` takes such an output
    apart again. */
module LinkLines {

  import opened Wrappers
  import opened Text
  import opened Markup
  import opened Attrs
  import LinkElement
  import Lines

  /** A table entry once the `content` and `generated_filename` keys are
      dropped. */
  datatype Icon = Icon(rel: string, sizes: Option<string>, typ: Option<string>)

  /** The truthiness test applied to an href: given and non-empty. */
  predicate Truthy(href: Option<string>)
  {
    href.Some? && href.value != ""
  }

  /** The link a slot holds: the entry's attributes with the href, when the href is
      truthy. */
  function Slot(icon: Icon, href: Option<string>): (r: Option<LinkElement.Link>)
    ensures r.Some? <==> Truthy(href)
  {
    if Truthy(href) then Some(LinkElement.Link(icon.rel, href, icon.sizes, icon.typ, None, None)) else None
  }

  function Slots(table: seq<Icon>, hrefs: seq<Option<string>>): (slots: seq<Option<LinkElement.Link>>)
    requires |table| == |hrefs|
    ensures |slots| == |table|
    ensures forall i :: 0 <= i < |slots| ==> slots[i] == Slot(table[i], hrefs[i])
  {
    if |table| == 0 then [] else [Slot(table[0], hrefs[0])] + Slots(table[1..], hrefs[1..])
  }

  /** The set slots, in table order. */
  function Present(slots: seq<Option<LinkElement.Link>>): (ls: seq<LinkElement.Link>)
    ensures |ls| <= |slots|
    ensures |ls| == 0 <==> forall i :: 0 <= i < |slots| ==> slots[i].None?
  {
    if |slots| == 0 then []
    else
      var rest := Present(slots[1..]);
      assert forall i :: 1 <= i < |slots| ==> slots[i] == slots[1..][i - 1];
      if slots[0].Some? then [slots[0].value] + rest else rest
  }

  /** The links the element should write: one per truthy href, with its
      entry's attributes, in table order. */
  function Picked(table: seq<Icon>, hrefs: seq<Option<string>>): (ls: seq<LinkElement.Link>)
    requires |table| == |hrefs|
    ensures |ls| <= |table|
    ensures |ls| == 0 <==> forall i :: 0 <= i < |hrefs| ==> !Truthy(hrefs[i])
  {
    if |table| == 0 then []
    else
      var rest := Picked(table[1..], hrefs[1..]);
      assert forall i :: 1 <= i < |hrefs| ==> hrefs[i] == hrefs[1..][i - 1];
      if Truthy(hrefs[0])
      then [LinkElement.Link(table[0].rel, hrefs[0], table[0].sizes, table[0].typ, None, None)] + rest
      else rest
  }

  function Renders(ls: seq<LinkElement.Link>): (rs: seq<string>)
    ensures |rs| == |ls|
    ensures forall i :: 0 <= i < |ls| ==> rs[i] == LinkElement.Render(ls[i])
  {
    if |ls| == 0 then [] else [LinkElement.Render(ls[0])] + Renders(ls[1..])
  }

  /** `compile`. */
  function Output(slots: seq<Option<LinkElement.Link>>): string
  {
    Lines.Compile(Renders(Present(slots)))
  }

  function DecodeAll(lines: seq<string>): (r: Option<seq<LinkElement.Link>>)
    ensures r.Some? ==> |r.value| == |lines|
  {
    if |lines| == 0 then Some([])
    else
      match LinkElement.Decode(lines[0])
      case None => None
      case Some(l) =>
        match DecodeAll(lines[1..])
        case None => None
        case Some(rest) => Some([l] + rest)
  }

  /** The inverse of `Output`. */
  function Read(s: string): Option<seq<LinkElement.Link>>
  {
    if s == "" then Some([]) else DecodeAll(Split(s, '\n'))
  }

  /** A value that survives the rewrite and the reader: no double quote, no
      `>` and no newline. */
  predicate Plain(v: string)
  {
    '"' !in v && '>' !in v && '\n' !in v
  }

  predicate OptPlain(v: Option<string>)
  {
    v.Some? ==> Plain(v.value)
  }

  predicate IconPlain(icon: Icon)
  {
    Plain(icon.rel) && OptPlain(icon.sizes) && OptPlain(icon.typ)
  }

  predicate Good(l: LinkElement.Link)
  {
    var fs := LinkElement.Fields(l);
    QuoteFree(fs) && SpaceGtFree(fs) && OneLine(fs)
  }

  lemma PlainGood(l: LinkElement.Link)
    requires Plain(l.rel) && OptPlain(l.href) && OptPlain(l.sizes) && OptPlain(l.typ)
    requires l.hreflang.None? && l.id.None?
    ensures Good(l)
  {
    var fs := LinkElement.Fields(l);
    NoGtNoOcc(l.rel);
    if l.href.Some? { NoGtNoOcc(l.href.value); }
    if l.sizes.Some? { NoGtNoOcc(l.sizes.value); }
    if l.typ.Some? { NoGtNoOcc(l.typ.value); }
    assert FieldSpaceGtFree(fs[0]) && FieldSpaceGtFree(fs[1]) && FieldSpaceGtFree(fs[2]) && FieldSpaceGtFree(fs[3]);
  }

  lemma {:induction false} SlotsPresent(table: seq<Icon>, hrefs: seq<Option<string>>)
    requires |table| == |hrefs|
    ensures Present(Slots(table, hrefs)) == Picked(table, hrefs)
  {
    if |table| > 0 {
      var slots := Slots(table, hrefs);
      SlotsPresent(table[1..], hrefs[1..]);
      assert slots[1..] == Slots(table[1..], hrefs[1..]);
    }
  }

  lemma DecodeAllCons(rs: seq<string>, l: LinkElement.Link, rest: seq<LinkElement.Link>)
    requires |rs| > 0 && LinkElement.Decode(rs[0]) == Some(l) && DecodeAll(rs[1..]) == Some(rest)
    ensures DecodeAll(rs) == Some([l] + rest)
  {
  }

  lemma {:induction false} DecodeRenders(ls: seq<LinkElement.Link>)
    requires forall j :: 0 <= j < |ls| ==> Good(ls[j])
    ensures DecodeAll(Renders(ls)) == Some(ls)
  {
    if |ls| > 0 {
      var rs := Renders(ls);
      LinkElement.DecodeRender(ls[0]);
      assert rs[1..] == Renders(ls[1..]);
      DecodeRenders(ls[1..]);
      DecodeAllCons(rs, ls[0], ls[1..]);
      assert ls == [ls[0]] + ls[1..];
    }
  }

  lemma {:induction false} PickedGood(table: seq<Icon>, hrefs: seq<Option<string>>)
    requires |table| == |hrefs|
    requires forall i :: 0 <= i < |table| ==> IconPlain(table[i])
    requires forall i :: 0 <= i < |hrefs| ==> OptPlain(hrefs[i])
    ensures forall j :: 0 <= j < |Picked(table, hrefs)| ==> Good(Picked(table, hrefs)[j])
  {
    if |table| > 0 {
      assert forall i :: 0 <= i < |table[1..]| ==> IconPlain(table[1..][i]) by {
        forall i | 0 <= i < |table[1..]| ensures IconPlain(table[1..][i]) {
          assert table[1..][i] == table[i + 1];
        }
      }
      assert forall i :: 0 <= i < |hrefs[1..]| ==> OptPlain(hrefs[1..][i]) by {
        forall i | 0 <= i < |hrefs[1..]| ensures OptPlain(hrefs[1..][i]) {
          assert hrefs[1..][i] == hrefs[i + 1];
        }
      }
      PickedGood(table[1..], hrefs[1..]);
      if Truthy(hrefs[0]) {
        assert IconPlain(table[0]) && OptPlain(hrefs[0]);
        PlainGood(LinkElement.Link(table[0].rel, hrefs[0], table[0].sizes, table[0].typ, None, None));
      }
    }
  }

  /** The output reads back as exactly the picked links, in table order. */
  lemma ReadSlots(table: seq<Icon>, hrefs: seq<Option<string>>)
    requires |table| == |hrefs|
    requires forall i :: 0 <= i < |table| ==> IconPlain(table[i])
    requires forall i :: 0 <= i < |hrefs| ==> OptPlain(hrefs[i])
    ensures Read(Output(Slots(table, hrefs))) == Some(Picked(table, hrefs))
  {
    var ls := Picked(table, hrefs);
    var rs := Renders(ls);
    SlotsPresent(table, hrefs);
    PickedGood(table, hrefs);
    forall j | 0 <= j < |ls| ensures '\n' !in rs[j] && |rs[j]| > 0 {
      LinkElement.RenderOneLine(ls[j]);
    }
    Lines.CompileEmpty(rs);
    if |ls| > 0 {
      Lines.CompileSplit(rs);
      DecodeRenders(ls);
    }
  }

  /** The output is empty exactly when no href is truthy. */
  lemma SlotsEmpty(table: seq<Icon>, hrefs: seq<Option<string>>)
    requires |table| == |hrefs|
    ensures Output(Slots(table, hrefs)) == "" <==> forall i :: 0 <= i < |hrefs| ==> !Truthy(hrefs[i])
  {
    var slots := Slots(table, hrefs);
    var rs := Renders(Present(slots));
    forall j | 0 <= j < |rs| ensures |rs[j]| > 0 {
      var l := Present(slots)[j];
      assert |LinkElement.Raw(l)| > 0;
      CollapseNonEmpty(LinkElement.Raw(l));
    }
    Lines.CompileEmpty(rs);
  }
}
