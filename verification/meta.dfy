/** The live `Meta` element: one of `name`, `http-equiv` or `property`, then
    optional `content` and `id`, each written as `key="value" `, inside
    `<meta ` ... `>`. No `" >"` rewrite is applied, so the output always ends
    with a space before `>`. */
module MetaElement {

  import opened Wrappers
  import opened Text
  import opened Markup
  import opened Attrs
  import Tag

  /** Which of the three mutually exclusive attributes names the tag. */
  datatype Kind = Name | HttpEquiv | Property

  function KindOf(a: string): Option<Kind>
  {
    if a == "name" then Some(Name)
    else if a == "http-equiv" then Some(HttpEquiv)
    else if a == "property" then Some(Property)
    else None
  }

  /** The attribute written for a kind; `KindOf` reads it back. */
  function KindAttr(k: Kind): (a: string)
    ensures KindOf(a) == Some(k)
    ensures IsWord(a)
  {
    match k
    case Name => "name"
    case HttpEquiv => "http-equiv"
    case Property => "property"
  }

  /** A constructed element: its kind, the value of that attribute, and the
      optional content and id. */
  datatype Meta = Meta(kind: Kind, disc: string, content: Option<string>, id: Option<string>)

  datatype MetaError = ValueError

  function Present(o: Option<string>): nat
  {
    if o.Some? then 1 else 0
  }

  /** The `name`, `http_equiv` and `property_` arguments the element stands for. */
  function Discriminators(m: Meta): (Option<string>, Option<string>, Option<string>)
  {
    match m.kind
    case Name => (Some(m.disc), None, None)
    case HttpEquiv => (None, Some(m.disc), None)
    case Property => (None, None, Some(m.disc))
  }

  /** The constructor: `ValueError` unless exactly one of `name`, `http_equiv`
      and `property_` is given; otherwise an element that keeps all five
      arguments. */
  function New(name: Option<string>, httpEquiv: Option<string>, property: Option<string>,
               content: Option<string>, id: Option<string>): (r: Result<Meta, MetaError>)
    ensures r.Success? <==> Present(name) + Present(httpEquiv) + Present(property) == 1
    ensures r.Success? ==> Discriminators(r.value) == (name, httpEquiv, property)
    ensures r.Success? ==> r.value.content == content && r.value.id == id
  {
    if Present(name) + Present(httpEquiv) + Present(property) != 1 then Failure(ValueError)
    else if name.Some? then Success(Meta(Name, name.value, content, id))
    else if httpEquiv.Some? then Success(Meta(HttpEquiv, httpEquiv.value, content, id))
    else Success(Meta(Property, property.value, content, id))
  }

  /** `Meta(name=D, content=C)` and its `http_equiv`/`property_` variants, as
      the composite elements call it: one discriminator, so it never raises. */
  function WithContent(k: Kind, disc: string, c: string): (r: Result<Meta, MetaError>)
    ensures r == Success(Meta(k, disc, Some(c), None))
  {
    match k
    case Name => New(Some(disc), None, None, Some(c), None)
    case HttpEquiv => New(None, Some(disc), None, Some(c), None)
    case Property => New(None, None, Some(disc), Some(c), None)
  }

  /** The attributes in the order they are written. */
  function Attributes(m: Meta): seq<Token>
  {
    [Pair(KindAttr(m.kind), m.disc)] + Opt("content", m.content) + Opt("id", m.id)
  }

  /** `_compile`: `<meta `, the fragments, `>`. The first attribute is always
      the discriminator and the tag always ends in `" >"`. */
  function Render(m: Meta): (r: string)
    ensures StartsWith(r, "<meta " + KindAttr(m.kind) + "=\"" + m.disc + "\" ")
    ensures EndsWith(r, " >")
  {
    RenderShape(m);
    "<meta " + Spaced(Attributes(m)) + ">"
  }

  lemma RenderShape(m: Meta)
    ensures StartsWith("<meta " + Spaced(Attributes(m)) + ">", "<meta " + KindAttr(m.kind) + "=\"" + m.disc + "\" ")
    ensures EndsWith("<meta " + Spaced(Attributes(m)) + ">", " >")
  {
    var rest := Opt("content", m.content) + Opt("id", m.id);
    assert Attributes(m) == [Pair(KindAttr(m.kind), m.disc)] + rest;
    SpacedHead("<meta ", KindAttr(m.kind), m.disc, rest, ">");
  }

  /** The same attributes separated by single spaces, as the older packages
      write a meta tag (`<meta name="N" content="C">`). */
  function TightRender(m: Meta): string
  {
    "<meta " + Tight(Attributes(m)) + ">"
  }

  /** `key`: None unless an id is given, and then the whole `id="X" ` fragment
      rather than X; it is exactly what the tag ends with before `>`. */
  function Key(m: Meta): (k: Option<string>)
    ensures k.Some? <==> m.id.Some?
    ensures k.Some? ==> EndsWith(Render(m), k.value + ">")
  {
    match m.id
    case None => None
    case Some(v) =>
      RenderEndsWithId(m);
      Some("id=\"" + v + "\" ")
  }

  lemma RenderEndsWithId(m: Meta)
    requires m.id.Some?
    ensures EndsWith(Render(m), "id=\"" + m.id.value + "\" " + ">")
  {
    var front := [Pair(KindAttr(m.kind), m.disc)] + Opt("content", m.content);
    assert Attributes(m) == front + [Pair("id", m.id.value)];
    SpacedEndsWithId("<meta ", front, m.id.value, ">");
  }

  // ---------------------------------------------------------------------------
  // Reading a tag back

  function Layout(k: Kind): seq<Spec>
  {
    [Required(KindAttr(k)), Optional("content"), Optional("id")]
  }

  function Fields(m: Meta): seq<Field>
  {
    [Given(m.disc), Maybe(m.content), Maybe(m.id)]
  }

  function FromFields(k: Kind, fs: seq<Field>): Meta
    requires FitsAll(Layout(k), fs)
  {
    Meta(k, fs[0].s, fs[1].o, fs[2].o)
  }

  lemma LayoutGood(k: Kind)
    ensures Distinct(Layout(k)) && GoodLayout(Layout(k))
  {
    var a := KindAttr(k);
    assert KindOf("content") == None && KindOf("id") == None;
    LayoutOf(a);
  }

  lemma LayoutOf(a: string)
    requires IsWord(a) && a != "content" && a != "id"
    ensures Distinct([Required(a), Optional("content"), Optional("id")])
    ensures GoodLayout([Required(a), Optional("content"), Optional("id")])
  {
    var l := [Required(a), Optional("content"), Optional("id")];
    var names := [a, "content", "id"];
    assert NamedAs(l, names);
    assert NoRepeats(names);
    DistinctByNames(l, names);
    Words();
    GoodByNames(l, names);
  }

  lemma Words()
    ensures IsWord("content") && IsWord("id")
  {
  }

  lemma FieldsOf(k: Kind, fs: seq<Field>)
    requires FitsAll(Layout(k), fs)
    ensures Fields(FromFields(k, fs)) == fs
    ensures FromFields(k, fs).kind == k
  {
    assert Fits(Layout(k)[0], fs[0]) && Fits(Layout(k)[1], fs[1]) && Fits(Layout(k)[2], fs[2]);
  }

  lemma AttributesEncode(m: Meta)
    ensures Attributes(m) == Encode(Layout(m.kind), Fields(m))
  {
    var l := Layout(m.kind);
    var fs := Fields(m);
    assert l[1..][1..][1..] == [] && fs[1..][1..][1..] == [];
    assert Encode(l[1..][1..], fs[1..][1..]) == Opt("id", m.id);
    assert Encode(l[1..], fs[1..]) == Opt("content", m.content) + Opt("id", m.id);
  }

  /** Every value free of double quotes. */
  predicate Clean(m: Meta)
  {
    IsValue(m.disc) &&
    (m.content.Some? ==> IsValue(m.content.value)) &&
    (m.id.Some? ==> IsValue(m.id.value))
  }

  lemma CleanFields(m: Meta)
    ensures Clean(m) <==> QuoteFree(Fields(m))
  {
    var fs := Fields(m);
    if QuoteFree(fs) {
      assert FieldQuoteFree(fs[0]) && FieldQuoteFree(fs[1]) && FieldQuoteFree(fs[2]);
    }
  }

  /** Reads `<meta ...>` back; the kind comes from the first attribute. */
  function Decode(s: string): Option<Meta>
  {
    match Tag.Tokens("<meta ", ">", s)
    case None => None
    case Some(ts) =>
      if |ts| == 0 || !ts[0].Pair? then None
      else
        match KindOf(ts[0].key)
        case None => None
        case Some(k) =>
          match Tag.Read(Layout(k), "<meta ", ">", s)
          case None => None
          case Some(fs) => Some(FromFields(k, fs))
  }

  /** `Decode` accepts exactly the meta tags written from quote-free elements,
      in either spelling, and returns the element they were written from. */
  lemma DecodeIff(s: string, m: Meta)
    ensures Decode(s) == Some(m) <==> Clean(m) && (s == Render(m) || s == TightRender(m))
  {
    if Decode(s) == Some(m) {
      DecodeSound(s, m);
    }
    if Clean(m) && (s == Render(m) || s == TightRender(m)) {
      DecodeComplete(s, m);
    }
  }

  lemma DecodeSound(s: string, m: Meta)
    requires Decode(s) == Some(m)
    ensures Clean(m) && (s == Render(m) || s == TightRender(m))
  {
    var ts := Tag.Tokens("<meta ", ">", s).value;
    var k := KindOf(ts[0].key).value;
    var fs := Tag.Read(Layout(k), "<meta ", ">", s).value;
    FieldsOf(k, fs);
    assert m == FromFields(k, fs);
    LayoutGood(k);
    Tag.ReadIff(Layout(k), "<meta ", ">", s, fs);
    CleanFields(m);
    AttributesEncode(m);
  }

  lemma DecodeComplete(s: string, m: Meta)
    requires Clean(m) && (s == Render(m) || s == TightRender(m))
    ensures Decode(s) == Some(m)
  {
    var ly, fs, ts := Layout(m.kind), Fields(m), Attributes(m);
    CleanFields(m);
    AttributesEncode(m);
    LayoutGood(m.kind);
    assert FitsAll(ly, fs) by {
      assert Fits(ly[0], fs[0]) && Fits(ly[1], fs[1]) && Fits(ly[2], fs[2]);
    }
    EncodeWellFormed(ly, fs);
    Tag.TokensOf("<meta ", ">", ts);
    assert Tag.Tokens("<meta ", ">", s) == Some(ts);
    assert ts[0] == Pair(KindAttr(m.kind), m.disc);
    assert Tag.Written(ly, fs, "<meta ", ">", s);
    Tag.ReadIff(ly, "<meta ", ">", s, fs);
    FieldsOf(m.kind, fs);
    assert FromFields(m.kind, fs) == m;
  }

  /** A meta tag with a discriminator and a content but no id, written without
      the trailing space, as the single-purpose elements write it. */
  lemma ContentOnlyText(k: Kind, disc: string, c: string)
    ensures TightRender(Meta(k, disc, Some(c), None))
            == "<meta " + KindAttr(k) + "=\"" + disc + "\" content=\"" + c + "\">"
  {
    var m := Meta(k, disc, Some(c), None);
    var a := KindAttr(k);
    assert Attributes(m) == [Pair(a, disc), Pair("content", c)];
    TightPairs(a, disc, "content", c);
    ContentSeam(a, disc, c);
  }

  lemma ContentSeam(a: string, disc: string, c: string)
    ensures "<meta " + (a + "=\"" + disc + "\" " + "content" + "=\"" + c + "\"") + ">"
            == "<meta " + a + "=\"" + disc + "\" content=\"" + c + "\">"
  {
  }

  /** The same element as `Render` writes it, with the trailing space. */
  lemma ContentOnlySpaced(k: Kind, disc: string, c: string)
    ensures Render(Meta(k, disc, Some(c), None))
            == "<meta " + KindAttr(k) + "=\"" + disc + "\" " + "content=\"" + c + "\" " + ">"
  {
    ContentOnlyTokens(k, disc, c);
  }

  lemma ContentOnlyTokens(k: Kind, disc: string, c: string)
    ensures Spaced(Attributes(Meta(k, disc, Some(c), None)))
            == (KindAttr(k) + "=\"" + disc + "\" ") + ("content=\"" + c + "\" ")
  {
    var ts := Attributes(Meta(k, disc, Some(c), None));
    assert ts == [Pair(KindAttr(k), disc), Pair("content", c)];
    assert ts[1..][1..] == [];
    assert Spaced(ts[1..]) == "content=\"" + c + "\" " by {
      assert TokenText(ts[1]) == "content" + "=\"" + c + "\"";
      assert "content" + "=\"" == "content=\"";
      assert "\"" + " " == "\" ";
    }
    assert Spaced(ts) == (KindAttr(k) + "=\"" + disc + "\"") + " " + Spaced(ts[1..]);
    assert "\"" + " " == "\" ";
  }

  /** That tag reads back as the element when both values are quote-free. */
  lemma ContentOnlyRender(k: Kind, disc: string, c: string)
    requires IsValue(disc) && IsValue(c)
    ensures Decode(Render(Meta(k, disc, Some(c), None))) == Some(Meta(k, disc, Some(c), None))
  {
    DecodeRender(Meta(k, disc, Some(c), None));
  }

  /** That tag reads back as the element when both values are quote-free. */
  lemma ContentOnly(k: Kind, disc: string, c: string)
    requires IsValue(disc) && IsValue(c)
    ensures Decode(TightRender(Meta(k, disc, Some(c), None))) == Some(Meta(k, disc, Some(c), None))
  {
    var m := Meta(k, disc, Some(c), None);
    DecodeIff(TightRender(m), m);
  }

  /** No value holds a newline. */
  predicate OneLine(m: Meta)
  {
    '\n' !in m.disc &&
    (m.content.Some? ==> '\n' !in m.content.value) &&
    (m.id.Some? ==> '\n' !in m.id.value)
  }

  /** Such an element is written on one line, in either spelling. */
  lemma RenderOneLine(m: Meta)
    requires OneLine(m)
    ensures '\n' !in Render(m) && '\n' !in TightRender(m)
  {
    var ts := Attributes(m);
    assert IsWord("content") && IsWord("id");
    forall i | 0 <= i < |ts| ensures '\n' !in TokenText(ts[i]) {
      PairOneLine(ts[i].key, ts[i].value);
    }
    SpacedFree(ts, '\n');
    TightFree(ts, '\n');
  }

  /** What the element writes reads back as the same element. */
  lemma DecodeRender(m: Meta)
    requires Clean(m)
    ensures Decode(Render(m)) == Some(m)
  {
    DecodeIff(Render(m), m);
  }
}
