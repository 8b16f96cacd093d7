/** `ScriptTag` of the `tags` package: the constructor stores each attribute as
    a ready-written fragment (`async` as `async="true" `, `defer` and
    `nomodule` as bare words) and the writer concatenates them inside
    `<script ` ... `></script>`, then rewrites every `" >"` to `">"`. It writes
    exactly what the live `Script` element writes. */
module ScriptTag {

  import opened Wrappers
  import opened Text
  import opened Markup
  import opened Attrs
  import ScriptElement

  /** The nine stored fragments; an absent or unset attribute is stored as `""`. */
  datatype ScriptTag = ScriptTag(src: string, typ: string, async: string, defer: string,
                                 crossorigin: string, integrity: string, nomodule: string,
                                 referrerpolicy: string, id: string)

  /** `async` is written with the lower-cased spelling of `True`. */
  function AsyncFragment(on: bool): string
  {
    if on then "async=\"true\" " else ""
  }

  /** The fragments the constructor stores for the attributes of `s`. */
  function Stored(s: ScriptElement.Script): ScriptTag
  {
    ScriptTag(Fragment("src", Some(s.src)), Fragment("type", s.typ), AsyncFragment(s.async),
              WordFragment("defer", s.defer), Fragment("crossorigin", s.crossorigin),
              Fragment("integrity", s.integrity), WordFragment("nomodule", s.nomodule),
              Fragment("referrerpolicy", s.referrerpolicy), Fragment("id", s.id))
  }

  /** The constructor. The tag it builds writes what the live element with the
      same attributes writes, and reads back as that element when no value
      holds a double quote or `" >"`. */
  function New(s: ScriptElement.Script): (t: ScriptTag)
    ensures Render(t) == ScriptElement.Render(s)
    ensures QuoteFree(ScriptElement.Fields(s)) && SpaceGtFree(ScriptElement.Fields(s)) ==>
              ScriptElement.Decode(Render(t)) == Some(s)
  {
    RawAsElement(s);
    ReadsBack(s);
    Stored(s)
  }

  lemma ReadsBack(s: ScriptElement.Script)
    ensures QuoteFree(ScriptElement.Fields(s)) && SpaceGtFree(ScriptElement.Fields(s)) ==>
              ScriptElement.Decode(ScriptElement.Render(s)) == Some(s)
  {
    if QuoteFree(ScriptElement.Fields(s)) && SpaceGtFree(ScriptElement.Fields(s)) {
      ScriptElement.DecodeRender(s);
    }
  }

  /** The stored fragments written in order, before the rewrite. */
  function Raw(t: ScriptTag): string
  {
    "<script " + t.src + t.typ + t.async + t.defer + t.crossorigin + t.integrity
    + t.nomodule + t.referrerpolicy + t.id + "></script>"
  }

  /** `_compile`: the raw tag with every `" >"` rewritten to `">"`. */
  function Render(t: ScriptTag): string
  {
    Collapse(Raw(t))
  }

  /** The stored fragments concatenate to the element's raw tag. */
  lemma RawAsElement(s: ScriptElement.Script)
    ensures Raw(Stored(s)) == ScriptElement.Raw(s)
  {
    var t := Stored(s);
    FrontSpaced(s);
    BackSpaced(s);
    Regroup("<script ", t.src, t.typ, t.async, t.defer, t.crossorigin, t.integrity,
            t.nomodule, t.referrerpolicy, t.id, "></script>");
  }

  lemma Regroup(open: string, a: string, b: string, c: string, d: string, e: string,
                f: string, g: string, h: string, i: string, close: string)
    ensures open + a + b + c + d + e + f + g + h + i + close
            == open + (a + (b + (c + (d + (e + (f + (g + (h + i)))))))) + close
  {
  }

  /** The tokens of `crossorigin`, `integrity`, `nomodule`, `referrerpolicy`
      and `id`. */
  function Back(s: ScriptElement.Script): seq<Token>
  {
    Opt("crossorigin", s.crossorigin) + (Opt("integrity", s.integrity) + (Flag("nomodule", s.nomodule)
    + (Opt("referrerpolicy", s.referrerpolicy) + Opt("id", s.id))))
  }

  /** `async="true" ` is the spaced pair the element writes for a set `async`. */
  lemma AsyncSpaced(on: bool)
    ensures AsyncFragment(on) == Spaced(Opt("async", if on then Some("true") else None))
  {
    FragmentSpaced("async", if on then Some("true") else None);
  }

  /** The `src`, `type`, `async` and `defer` fragments lead the spaced attributes. */
  lemma FrontSpaced(s: ScriptElement.Script)
    ensures Spaced(ScriptElement.Attributes(s))
            == Fragment("src", Some(s.src)) + (Fragment("type", s.typ) + (AsyncFragment(s.async)
               + (WordFragment("defer", s.defer) + Spaced(Back(s)))))
  {
    var a := Opt("src", Some(s.src));
    var b := Opt("type", s.typ);
    var c := Opt("async", if s.async then Some("true") else None);
    var d := Flag("defer", s.defer);
    AttributesSplit(s);
    SpacedConcat(a, b + (c + (d + Back(s))));
    SpacedConcat(b, c + (d + Back(s)));
    SpacedConcat(c, d + Back(s));
    SpacedConcat(d, Back(s));
    FragmentSpaced("src", Some(s.src));
    FragmentSpaced("type", s.typ);
    AsyncSpaced(s.async);
    WordFragmentSpaced("defer", s.defer);
  }

  lemma BackSpaced(s: ScriptElement.Script)
    ensures Fragment("crossorigin", s.crossorigin) + (Fragment("integrity", s.integrity)
            + (WordFragment("nomodule", s.nomodule) + (Fragment("referrerpolicy", s.referrerpolicy)
            + Fragment("id", s.id)))) == Spaced(Back(s))
  {
    var a := Opt("crossorigin", s.crossorigin);
    var b := Opt("integrity", s.integrity);
    var c := Flag("nomodule", s.nomodule);
    var d := Opt("referrerpolicy", s.referrerpolicy);
    var e := Opt("id", s.id);
    SpacedConcat(a, b + (c + (d + e)));
    SpacedConcat(b, c + (d + e));
    SpacedConcat(c, d + e);
    SpacedConcat(d, e);
    FragmentSpaced("crossorigin", s.crossorigin);
    FragmentSpaced("integrity", s.integrity);
    WordFragmentSpaced("nomodule", s.nomodule);
    FragmentSpaced("referrerpolicy", s.referrerpolicy);
    FragmentSpaced("id", s.id);
  }

  /** The element's attributes, slot by slot. */
  lemma AttributesSplit(s: ScriptElement.Script)
    ensures ScriptElement.Attributes(s)
            == Opt("src", Some(s.src)) + (Opt("type", s.typ) + (Opt("async", if s.async then Some("true") else None)
               + (Flag("defer", s.defer) + Back(s))))
  {
    var ly, fs := ScriptElement.Layout(), ScriptElement.Fields(s);
    EncodeNine(ly, fs);
    assert EncodeOne(ly[0], fs[0]) == Opt("src", Some(s.src));
    assert EncodeOne(ly[1], fs[1]) == Opt("type", s.typ);
    assert EncodeOne(ly[2], fs[2]) == Opt("async", if s.async then Some("true") else None);
    assert EncodeOne(ly[3], fs[3]) == Flag("defer", s.defer);
    assert EncodeOne(ly[4], fs[4]) == Opt("crossorigin", s.crossorigin);
    assert EncodeOne(ly[5], fs[5]) == Opt("integrity", s.integrity);
    assert EncodeOne(ly[6], fs[6]) == Flag("nomodule", s.nomodule);
    assert EncodeOne(ly[7], fs[7]) == Opt("referrerpolicy", s.referrerpolicy);
    assert EncodeOne(ly[8], fs[8]) == Opt("id", s.id);
  }

  /** The smallest tag: only `src`; unset booleans write nothing. */
  lemma SrcOnly(src: string)
    requires IsValue(src) && NoOcc(src, " >")
    ensures Render(New(ScriptElement.Script(src, None, false, false, None, None, false, None, None)))
            == "<script src=\"" + src + "\"></script>"
  {
    ScriptElement.SrcOnly(src);
  }
}
