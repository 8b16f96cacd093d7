/** The live `Link` element: `rel`, then `href`, `sizes`, `type`, `hreflang`
    and `id` when given, each as `key="value" `, inside `<link ` ... `>`; the
    whole text then has every `" >"` rewritten to `">"`. */
module LinkElement {

  import opened Wrappers
  import opened Text
  import opened Markup
  import opened Attrs
  import Tag

  datatype Link = Link(rel: string, href: Option<string>, sizes: Option<string>,
                       typ: Option<string>, hreflang: Option<string>, id: Option<string>)

  /** The attributes in the order they are written. */
  function Attributes(l: Link): seq<Token>
  {
    Encode(Layout(), Fields(l))
  }

  /** The tag before the rewrite. */
  function Raw(l: Link): string
  {
    "<link " + Spaced(Attributes(l)) + ">"
  }

  /** The tag without the space before `>`. */
  function TightRender(l: Link): string
  {
    "<link " + Tight(Attributes(l)) + ">"
  }

  /** `_compile`: the raw tag with every `" >"` rewritten. When no value holds
      `" >"` (nor a double quote) the only change is the space before the final
      `>`. */
  function Render(l: Link): (r: string)
    ensures QuoteFree(Fields(l)) && SpaceGtFree(Fields(l)) ==> r == TightRender(l)
  {
    if QuoteFree(Fields(l)) && SpaceGtFree(Fields(l)) then
      RenderClean(l);
      Collapse(Raw(l))
    else Collapse(Raw(l))
  }

  lemma RenderClean(l: Link)
    requires QuoteFree(Fields(l)) && SpaceGtFree(Fields(l))
    ensures Collapse(Raw(l)) == TightRender(l)
  {
    LayoutGood();
    EncodeWellFormed(Layout(), Fields(l));
    EncodeSpaceGtFree(Layout(), Fields(l));
    OpeningNoOcc("<link");
    assert "<link" + " " == "<link ";
    CollapseTag("<link ", Attributes(l), ">");
  }

  /** A clean element is written on one line and is never empty. */
  lemma RenderOneLine(l: Link)
    requires QuoteFree(Fields(l)) && SpaceGtFree(Fields(l)) && OneLine(Fields(l))
    ensures '\n' !in Render(l) && |Render(l)| > 0
  {
    LayoutGood();
    EncodeOneLine(Layout(), Fields(l));
    TightFree(Attributes(l), '\n');
  }

  /** `key`: None unless an id is given, and then the whole `id="X" ` fragment. */
  function Key(l: Link): (k: Option<string>)
    ensures k.Some? <==> l.id.Some?
    ensures k.Some? ==> EndsWith(Raw(l), k.value + ">")
  {
    match l.id
    case None => None
    case Some(v) =>
      RawEndsWithId(l);
      Some("id=\"" + v + "\" ")
  }

  lemma RawEndsWithId(l: Link)
    requires l.id.Some?
    ensures EndsWith(Raw(l), "id=\"" + l.id.value + "\" " + ">")
  {
    var fl := [Required("rel"), Optional("href"), Optional("sizes"), Optional("type"), Optional("hreflang")];
    var ff := [Given(l.rel), Maybe(l.href), Maybe(l.sizes), Maybe(l.typ), Maybe(l.hreflang)];
    assert Layout() == fl + [Optional("id")];
    assert Fields(l) == ff + [Maybe(l.id)];
    EncodeSnoc(fl, ff, Optional("id"), Maybe(l.id));
    assert EncodeOne(Optional("id"), Maybe(l.id)) == [Pair("id", l.id.value)];
    SpacedEndsWithId("<link ", Encode(fl, ff), l.id.value, ">");
  }

  // ---------------------------------------------------------------------------
  // Reading a tag back

  function Layout(): seq<Spec>
  {
    [Required("rel"), Optional("href"), Optional("sizes"), Optional("type"), Optional("hreflang"), Optional("id")]
  }

  function Fields(l: Link): seq<Field>
  {
    [Given(l.rel), Maybe(l.href), Maybe(l.sizes), Maybe(l.typ), Maybe(l.hreflang), Maybe(l.id)]
  }

  function FromFields(fs: seq<Field>): Link
    requires FitsAll(Layout(), fs)
  {
    Link(fs[0].s, fs[1].o, fs[2].o, fs[3].o, fs[4].o, fs[5].o)
  }

  /** The slot names, in layout order. */
  function Names(): seq<string>
  {
    ["rel", "href", "sizes", "type", "hreflang", "id"]
  }

  lemma LayoutNames()
    ensures NamedAs(Layout(), Names())
  {
  }

  lemma LayoutGood()
    ensures Distinct(Layout()) && GoodLayout(Layout())
  {
    LayoutNames();
    assert NoRepeats(Names());
    DistinctByNames(Layout(), Names());
    LayoutWords();
  }

  lemma LayoutWords()
    ensures GoodLayout(Layout())
  {
    LayoutNames();
    Words();
    GoodByNames(Layout(), Names());
  }

  lemma Words()
    ensures IsWord("rel") && IsWord("href") && IsWord("sizes")
    ensures IsWord("type") && IsWord("hreflang") && IsWord("id")
  {
  }

  lemma FieldsOf(fs: seq<Field>)
    requires FitsAll(Layout(), fs)
    ensures Fields(FromFields(fs)) == fs
  {
    var l := Layout();
    assert Fits(l[0], fs[0]) && Fits(l[1], fs[1]) && Fits(l[2], fs[2]);
    assert Fits(l[3], fs[3]) && Fits(l[4], fs[4]) && Fits(l[5], fs[5]);
  }

  /** Reads `<link ...>` back, in either spelling. */
  function Decode(s: string): Option<Link>
  {
    match Tag.Read(Layout(), "<link ", ">", s)
    case None => None
    case Some(fs) => Some(FromFields(fs))
  }

  /** `Decode` accepts exactly the link tags written from quote-free elements,
      before or after the rewrite, and returns the element. */
  lemma DecodeIff(s: string, l: Link)
    ensures Decode(s) == Some(l) <==> QuoteFree(Fields(l)) && (s == Raw(l) || s == TightRender(l))
  {
    if Decode(s) == Some(l) {
      DecodeSound(s, l);
    }
    if QuoteFree(Fields(l)) && (s == Raw(l) || s == TightRender(l)) {
      DecodeComplete(s, l);
    }
  }

  lemma DecodeSound(s: string, l: Link)
    requires Decode(s) == Some(l)
    ensures QuoteFree(Fields(l)) && (s == Raw(l) || s == TightRender(l))
  {
    var fs := Tag.Read(Layout(), "<link ", ">", s).value;
    FieldsOf(fs);
    ReadLayout(s, fs);
  }

  lemma DecodeComplete(s: string, l: Link)
    requires QuoteFree(Fields(l)) && (s == Raw(l) || s == TightRender(l))
    ensures Decode(s) == Some(l)
  {
    FieldsFit(l);
    assert Tag.Written(Layout(), Fields(l), "<link ", ">", s);
    ReadLayout(s, Fields(l));
    FromFieldsOf(l);
  }

  lemma FieldsFit(l: Link)
    ensures FitsAll(Layout(), Fields(l))
  {
  }

  lemma FromFieldsOf(l: Link)
    ensures FitsAll(Layout(), Fields(l)) && FromFields(Fields(l)) == l
  {
    FieldsFit(l);
  }

  lemma ReadLayout(s: string, fs: seq<Field>)
    ensures Tag.Read(Layout(), "<link ", ">", s) == Some(fs) <==>
              FitsAll(Layout(), fs) && QuoteFree(fs) && Tag.Written(Layout(), fs, "<link ", ">", s)
  {
    LayoutGood();
    Tag.ReadIff(Layout(), "<link ", ">", s, fs);
  }

  /** What the element writes reads back as the same element, when no value
      holds a double quote or `" >"`. */
  lemma DecodeRender(l: Link)
    requires QuoteFree(Fields(l)) && SpaceGtFree(Fields(l))
    ensures Decode(Render(l)) == Some(l)
  {
    DecodeIff(Render(l), l);
  }

  /** The rewrite is global: a `rel` holding `" >"` loses the space, so the
      tag reads back as a different element. */
  lemma RewriteAltersValue(x: string, y: string)
    requires ' ' !in x && ' ' !in y && IsValue(x) && IsValue(y)
    ensures Render(Link(x + " >" + y, None, None, None, None, None)) == "<link rel=\"" + x + ">" + y + "\">"
    ensures Decode(Render(Link(x + " >" + y, None, None, None, None, None))) == Some(Link(x + ">" + y, None, None, None, None, None))
  {
    var v := x + ">" + y;
    RenderSpaceGt(x, y);
    ValueInside("<link rel=\"", x, ">", y, "\">");
    assert IsValue(v);
    DecodeRelOnly(v);
  }

  /** The rewrite of a rel-only tag whose value holds `" >"`. */
  lemma RenderSpaceGt(x: string, y: string)
    requires ' ' !in x && ' ' !in y
    ensures Render(Link(x + " >" + y, None, None, None, None, None)) == "<link rel=\"" + x + ">" + y + "\">"
  {
    var l := Link(x + " >" + y, None, None, None, None, None);
    var v := x + " >" + y;
    RelOnly(v);
    SpacedOne("rel", v);
    assert "rel" + "=\"" == "rel=\"";
    var a := "rel=\"" + x;
    var b := y + "\"";
    RawShape("<link", " ", "rel=\"", x, " >", y, "\"", ">");
    assert "<link" + " " == "<link " && " " + ">" == " >";
    assert Raw(l) == "<link" + (" " + (a + (" >" + (b + " >"))));
    assert ' ' !in a && ' ' !in b && a[0] != '>';
    CollapseValue("<link", a, b);
    RenderShape("<link", "rel=\"", x, y, "\"", ">");
    assert "<link" + " " + "rel=\"" == "<link rel=\"" && "\"" + ">" == "\">";
  }

  lemma ValueInside(p: string, x: string, m: string, y: string, q: string)
    ensures p + x + m + y + q == p + (x + m + y) + q
  {
  }

  /** `<open> <a> >` + b + ` >`, regrouped. */
  lemma RawShape(o: string, s: string, r: string, x: string, g: string, y: string, q: string, c: string)
    ensures (o + s) + (r + (x + g + y) + q + s) + c == o + (s + ((r + x) + (g + ((y + q) + (s + c)))))
  {
  }

  lemma RenderShape(o: string, r: string, x: string, y: string, q: string, c: string)
    ensures o + (" " + ((r + x) + (">" + ((y + q) + c)))) == (o + " " + r) + x + ">" + y + (q + c)
  {
  }

  lemma DecodeRelOnly(v: string)
    requires IsValue(v)
    ensures Decode("<link rel=\"" + v + "\">") == Some(Link(v, None, None, None, None, None))
  {
    var t := Link(v, None, None, None, None, None);
    RelOnly(v);
    assert TightRender(t) == "<link rel=\"" + v + "\">";
    assert QuoteFree(Fields(t)) by {
      assert Fields(t)[0] == Given(v);
    }
    DecodeIff("<link rel=\"" + v + "\">", t);
  }

  lemma RelOnly(rel: string)
    ensures Attributes(Link(rel, None, None, None, None, None)) == [Pair("rel", rel)]
  {
    var ly := Layout();
    var fs := Fields(Link(rel, None, None, None, None, None));
    EncodeSix(ly, fs);
    assert EncodeOne(ly[0], fs[0]) == [Pair("rel", rel)];
    assert EncodeOne(ly[1], fs[1]) == [] && EncodeOne(ly[2], fs[2]) == [] && EncodeOne(ly[3], fs[3]) == [];
    assert EncodeOne(ly[4], fs[4]) == [] && EncodeOne(ly[5], fs[5]) == [];
  }

  /** Only the two `" >"` are rewritten: the space after the tag name is not
      followed by `>`. */
  lemma CollapseValue(open: string, a: string, b: string)
    requires ' ' !in open && ' ' !in a && ' ' !in b && |a| > 0 && a[0] != '>'
    ensures Collapse(open + (" " + (a + (" >" + (b + " >"))))) == open + (" " + (a + (">" + (b + ">"))))
  {
    CollapseSpaceGt("");
    assert " >" + "" == " >" && ">" + "" == ">";
    CollapseSkip(b, " >");
    CollapseSpaceGt(b + " >");
    CollapseSkip(a, " >" + (b + " >"));
    CollapseLoneSpace(a + (" >" + (b + " >")));
    CollapseSkip(open, " " + (a + (" >" + (b + " >"))));
  }
}
