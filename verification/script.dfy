/** The live `Script` element: `src`, then `type`, `async="true"`, the bare word
    `defer`, `crossorigin`, `integrity`, the bare word `nomodule`,
    `referrerpolicy` and `id` when given or set, inside `<script ` ...
    `></script>`; the whole text then has every `" >"` rewritten to `">"`. */
module ScriptElement {

  import opened Wrappers
  import opened Text
  import opened Markup
  import opened Attrs
  import Tag

  datatype Script = Script(src: string, typ: Option<string>, async: bool, defer: bool,
                           crossorigin: Option<string>, integrity: Option<string>, nomodule: bool,
                           referrerpolicy: Option<string>, id: Option<string>)

  /** The slots in the order they are written. `async` is written as the fixed
      pair `async="true"`; `defer` and `nomodule` as bare words. */
  function Layout(): seq<Spec>
  {
    [Required("src"), Optional("type"), Switch("async", "true"), Word("defer"),
     Optional("crossorigin"), Optional("integrity"), Word("nomodule"),
     Optional("referrerpolicy"), Optional("id")]
  }

  function Fields(s: Script): seq<Field>
  {
    [Given(s.src), Maybe(s.typ), Toggle(s.async), Toggle(s.defer),
     Maybe(s.crossorigin), Maybe(s.integrity), Toggle(s.nomodule),
     Maybe(s.referrerpolicy), Maybe(s.id)]
  }

  function FromFields(fs: seq<Field>): Script
    requires FitsAll(Layout(), fs)
  {
    Script(fs[0].s, fs[1].o, fs[2].flag, fs[3].flag, fs[4].o, fs[5].o, fs[6].flag, fs[7].o, fs[8].o)
  }

  function Attributes(s: Script): seq<Token>
  {
    Encode(Layout(), Fields(s))
  }

  /** The tag before the rewrite. */
  function Raw(s: Script): string
  {
    "<script " + Spaced(Attributes(s)) + "></script>"
  }

  /** The tag without the space before `></script>`. */
  function TightRender(s: Script): string
  {
    "<script " + Tight(Attributes(s)) + "></script>"
  }

  /** `_compile`: the raw tag with every `" >"` rewritten. When no value holds
      `" >"` (nor a double quote) the only change is the space before
      `></script>`. */
  function Render(s: Script): (r: string)
    ensures QuoteFree(Fields(s)) && SpaceGtFree(Fields(s)) ==> r == TightRender(s)
  {
    if QuoteFree(Fields(s)) && SpaceGtFree(Fields(s)) then
      RenderClean(s);
      Collapse(Raw(s))
    else Collapse(Raw(s))
  }

  lemma RenderClean(s: Script)
    requires QuoteFree(Fields(s)) && SpaceGtFree(Fields(s))
    ensures Collapse(Raw(s)) == TightRender(s)
  {
    AttributesShape(s);
    OpeningNoOcc("<script");
    assert "<script" + " " == "<script ";
    NoSpaceNoOcc("</script>");
    assert "></script>"[1..] == "</script>";
    CollapseTag("<script ", Attributes(s), "></script>");
  }

  lemma AttributesShape(s: Script)
    requires QuoteFree(Fields(s)) && SpaceGtFree(Fields(s))
    ensures |Attributes(s)| > 0 && AllWellFormed(Attributes(s)) && NoSpaceGtValues(Attributes(s))
  {
    AttributesWellFormed(s);
    AttributesSpaceGtFree(s);
    EncodeNonEmpty(Layout(), Fields(s));
  }

  lemma AttributesWellFormed(s: Script)
    requires QuoteFree(Fields(s))
    ensures AllWellFormed(Attributes(s))
  {
    LayoutWords();
    FieldsFit(s);
    EncodeWellFormed(Layout(), Fields(s));
  }

  lemma AttributesSpaceGtFree(s: Script)
    requires SpaceGtFree(Fields(s))
    ensures NoSpaceGtValues(Attributes(s))
  {
    LayoutWords();
    FieldsFit(s);
    EncodeSpaceGtFree(Layout(), Fields(s));
  }

  lemma FieldsFit(s: Script)
    ensures FitsAll(Layout(), Fields(s))
  {
  }

  /** `key`: None unless an id is given, and then the whole `id="X" ` fragment. */
  function Key(s: Script): (k: Option<string>)
    ensures k.Some? <==> s.id.Some?
    ensures k.Some? ==> EndsWith(Raw(s), k.value + "></script>")
  {
    match s.id
    case None => None
    case Some(v) =>
      RawEndsWithId(s);
      Some("id=\"" + v + "\" ")
  }

  lemma RawEndsWithId(s: Script)
    requires s.id.Some?
    ensures EndsWith(Raw(s), "id=\"" + s.id.value + "\" " + "></script>")
  {
    var fl := [Required("src"), Optional("type"), Switch("async", "true"), Word("defer"),
               Optional("crossorigin"), Optional("integrity"), Word("nomodule"), Optional("referrerpolicy")];
    var ff := [Given(s.src), Maybe(s.typ), Toggle(s.async), Toggle(s.defer),
               Maybe(s.crossorigin), Maybe(s.integrity), Toggle(s.nomodule), Maybe(s.referrerpolicy)];
    assert Layout() == fl + [Optional("id")];
    assert Fields(s) == ff + [Maybe(s.id)];
    EncodeSnoc(fl, ff, Optional("id"), Maybe(s.id));
    assert EncodeOne(Optional("id"), Maybe(s.id)) == [Pair("id", s.id.value)];
    SpacedEndsWithId("<script ", Encode(fl, ff), s.id.value, "></script>");
  }

  // ---------------------------------------------------------------------------
  // Reading a tag back

  lemma LayoutGood()
    ensures Distinct(Layout()) && GoodLayout(Layout())
  {
    LayoutDistinct();
    LayoutWords();
  }

  /** The slot names, in layout order. */
  function Names(): seq<string>
  {
    ["src", "type", "async", "defer", "crossorigin", "integrity", "nomodule", "referrerpolicy", "id"]
  }

  lemma LayoutNames()
    ensures NamedAs(Layout(), Names())
  {
  }

  lemma LayoutDistinct()
    ensures Distinct(Layout())
  {
    LayoutNames();
    assert NoRepeats(Names());
    DistinctByNames(Layout(), Names());
  }

  lemma LayoutWords()
    ensures GoodLayout(Layout())
  {
    LayoutNames();
    Words1();
    Words2();
    assert PlainValue("true");
    GoodByNames(Layout(), Names());
  }

  lemma Words1()
    ensures IsWord("src") && IsWord("type") && IsWord("async") && IsWord("defer") && IsWord("crossorigin")
  {
  }

  lemma Words2()
    ensures IsWord("integrity") && IsWord("nomodule") && IsWord("referrerpolicy") && IsWord("id")
  {
  }

  lemma FieldsOf(fs: seq<Field>)
    requires FitsAll(Layout(), fs)
    ensures Fields(FromFields(fs)) == fs
  {
    var l := Layout();
    assert Fits(l[0], fs[0]) && Fits(l[1], fs[1]) && Fits(l[2], fs[2]);
    assert Fits(l[3], fs[3]) && Fits(l[4], fs[4]) && Fits(l[5], fs[5]);
    assert Fits(l[6], fs[6]) && Fits(l[7], fs[7]) && Fits(l[8], fs[8]);
  }

  /** Reads `<script ...></script>` back, in either spelling. */
  function Decode(t: string): Option<Script>
  {
    match Tag.Read(Layout(), "<script ", "></script>", t)
    case None => None
    case Some(fs) => Some(FromFields(fs))
  }

  /** `Decode` accepts exactly the script tags written from quote-free
      elements, before or after the rewrite, and returns the element. */
  lemma DecodeIff(t: string, s: Script)
    ensures Decode(t) == Some(s) <==> QuoteFree(Fields(s)) && (t == Raw(s) || t == TightRender(s))
  {
    if Decode(t) == Some(s) {
      DecodeSound(t, s);
    }
    if QuoteFree(Fields(s)) && (t == Raw(s) || t == TightRender(s)) {
      DecodeComplete(t, s);
    }
  }

  lemma DecodeSound(t: string, s: Script)
    requires Decode(t) == Some(s)
    ensures QuoteFree(Fields(s)) && (t == Raw(s) || t == TightRender(s))
  {
    var fs := Tag.Read(Layout(), "<script ", "></script>", t).value;
    FieldsOf(fs);
    ReadLayout(t, fs);
  }

  lemma DecodeComplete(t: string, s: Script)
    requires QuoteFree(Fields(s)) && (t == Raw(s) || t == TightRender(s))
    ensures Decode(t) == Some(s)
  {
    FieldsFit(s);
    assert Tag.Written(Layout(), Fields(s), "<script ", "></script>", t);
    ReadLayout(t, Fields(s));
    FromFieldsOf(s);
  }

  lemma FromFieldsOf(s: Script)
    ensures FitsAll(Layout(), Fields(s)) && FromFields(Fields(s)) == s
  {
    FieldsFit(s);
  }

  lemma ReadLayout(t: string, fs: seq<Field>)
    ensures Tag.Read(Layout(), "<script ", "></script>", t) == Some(fs) <==>
              FitsAll(Layout(), fs) && QuoteFree(fs) && Tag.Written(Layout(), fs, "<script ", "></script>", t)
  {
    LayoutGood();
    Tag.ReadIff(Layout(), "<script ", "></script>", t, fs);
  }

  /** What the element writes reads back as the same element, when no value
      holds a double quote or `" >"`. */
  lemma DecodeRender(s: Script)
    requires QuoteFree(Fields(s)) && SpaceGtFree(Fields(s))
    ensures Decode(Render(s)) == Some(s)
  {
    DecodeIff(Render(s), s);
  }

  /** The smallest script: only `src`. The boolean attributes are omitted
      when false. */
  lemma SrcOnly(src: string)
    requires IsValue(src) && NoOcc(src, " >")
    ensures Render(Script(src, None, false, false, None, None, false, None, None)) == "<script src=\"" + src + "\"></script>"
  {
    SrcOnlyAttributes(src);
    SrcOnlyClean(src);
  }

  lemma SrcOnlyAttributes(src: string)
    ensures Attributes(Script(src, None, false, false, None, None, false, None, None)) == [Pair("src", src)]
  {
    var ly := Layout();
    var fs := Fields(Script(src, None, false, false, None, None, false, None, None));
    EncodeNine(ly, fs);
    assert EncodeOne(ly[0], fs[0]) == [Pair("src", src)];
    assert EncodeOne(ly[1], fs[1]) == [] && EncodeOne(ly[2], fs[2]) == [] && EncodeOne(ly[3], fs[3]) == [];
    assert EncodeOne(ly[4], fs[4]) == [] && EncodeOne(ly[5], fs[5]) == [] && EncodeOne(ly[6], fs[6]) == [];
    assert EncodeOne(ly[7], fs[7]) == [] && EncodeOne(ly[8], fs[8]) == [];
  }

  lemma SrcOnlyClean(src: string)
    requires IsValue(src) && NoOcc(src, " >")
    ensures QuoteFree(Fields(Script(src, None, false, false, None, None, false, None, None)))
    ensures SpaceGtFree(Fields(Script(src, None, false, false, None, None, false, None, None)))
  {
    var fs := Fields(Script(src, None, false, false, None, None, false, None, None));
    forall i | 0 <= i < |fs| ensures FieldQuoteFree(fs[i]) && FieldSpaceGtFree(fs[i]) {
      if i == 0 {
        assert fs[i] == Given(src);
      }
    }
  }
}
