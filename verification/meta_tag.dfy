/** `MetaTag` of the `tags` package that the presets are built on. It validates
    its discriminators like the live `Meta`, stores each attribute as a
    `key="value" ` fragment (an absent one as `""`), and writes
    `<meta ` + the five fragments + `>`. `replace_content` assigns an attribute
    that the writer never reads. */
module MetaTag {

  import opened Wrappers
  import opened Text
  import opened Markup
  import MetaElement
  import MetaLines
  import Lines

  /** The validated attributes, and the `content` attribute `replace_content`
      sets beside the stored fragments. */
  datatype MetaTag = MetaTag(meta: MetaElement.Meta, replaced: Option<string>)

  /** The constructor: `ValueError` unless exactly one of `name`, `http_equiv`
      and `property_` is given. */
  function New(name: Option<string>, httpEquiv: Option<string>, property: Option<string>,
               content: Option<string>, id: Option<string>): (r: Result<MetaTag, MetaElement.MetaError>)
    ensures r.Success? <==> MetaElement.Present(name) + MetaElement.Present(httpEquiv) + MetaElement.Present(property) == 1
    ensures r.Success? ==> MetaElement.Discriminators(r.value.meta) == (name, httpEquiv, property)
    ensures r.Success? ==> r.value.meta.content == content && r.value.meta.id == id && r.value.replaced.None?
  {
    match MetaElement.New(name, httpEquiv, property, content, id)
    case Success(m) => Success(MetaTag(m, None))
    case Failure(e) => Failure(e)
  }

  /** `_compile`: the name, http-equiv, property, content and id fragments in
      that order; two of the first three are always `""`. */
  function Render(t: MetaTag): (r: string)
    ensures StartsWith(r, "<meta ") && EndsWith(r, " >")
    ensures r == MetaElement.Render(t.meta)
  {
    var d := MetaElement.Discriminators(t.meta);
    RenderAsElement(t);
    "<meta " + Fragment("name", d.0) + Fragment("http-equiv", d.1) + Fragment("property", d.2)
    + Fragment("content", t.meta.content) + Fragment("id", t.meta.id) + ">"
  }

  /** The five stored fragments spell the same attributes, in the same order,
      as the live element's writer. */
  lemma RenderAsElement(t: MetaTag)
    ensures var d := MetaElement.Discriminators(t.meta);
            "<meta " + Fragment("name", d.0) + Fragment("http-equiv", d.1) + Fragment("property", d.2)
            + Fragment("content", t.meta.content) + Fragment("id", t.meta.id) + ">"
            == MetaElement.Render(t.meta)
  {
    var m := t.meta;
    var d := MetaElement.Discriminators(m);
    FragmentsSpaced(m);
    Regroup("<meta ", Fragment("name", d.0), Fragment("http-equiv", d.1), Fragment("property", d.2),
            Fragment("content", m.content), Fragment("id", m.id), ">");
  }

  lemma Regroup(open: string, a: string, b: string, c: string, x: string, y: string, close: string)
    ensures open + a + b + c + x + y + close == open + (a + b + c + x + y) + close
  {
  }

  /** The five fragments together are the spaced attributes. */
  lemma FragmentsSpaced(m: MetaElement.Meta)
    ensures var d := MetaElement.Discriminators(m);
            Fragment("name", d.0) + Fragment("http-equiv", d.1) + Fragment("property", d.2)
            + Fragment("content", m.content) + Fragment("id", m.id)
            == Spaced(MetaElement.Attributes(m))
  {
    var first := [Pair(MetaElement.KindAttr(m.kind), m.disc)];
    var c := Opt("content", m.content);
    var i := Opt("id", m.id);
    assert MetaElement.Attributes(m) == first + c + i;
    SpacedConcat(first + c, i);
    SpacedConcat(first, c);
    FragmentSpaced("content", m.content);
    FragmentSpaced("id", m.id);
    LeadSpaced(m);
  }

  /** Exactly one of the three discriminator fragments is non-empty, and it is
      the spaced first attribute. */
  lemma LeadSpaced(m: MetaElement.Meta)
    ensures var d := MetaElement.Discriminators(m);
            Fragment("name", d.0) + Fragment("http-equiv", d.1) + Fragment("property", d.2)
            == Spaced([Pair(MetaElement.KindAttr(m.kind), m.disc)])
  {
    var a := MetaElement.KindAttr(m.kind);
    FragmentSpaced(a, Some(m.disc));
    assert Opt(a, Some(m.disc)) == [Pair(a, m.disc)];
  }

  /** `replace_content`: sets an attribute the writer never reads, so the tag
      renders exactly as before; the stored attributes are untouched. */
  function ReplaceContent(t: MetaTag, content: string): (u: MetaTag)
    ensures Render(u) == Render(t)
    ensures u.meta == t.meta && u.replaced == Some(content)
  {
    t.(replaced := Some(content))
  }

  /** Whatever content is passed, the tag still reads back as the element it
      was constructed from. */
  lemma ReplaceContentIgnored(name: Option<string>, httpEquiv: Option<string>, property: Option<string>,
                              content: Option<string>, id: Option<string>, other: string)
    requires New(name, httpEquiv, property, content, id).Success?
    requires MetaElement.Clean(New(name, httpEquiv, property, content, id).value.meta)
    ensures var t := New(name, httpEquiv, property, content, id).value;
            MetaElement.Decode(Render(ReplaceContent(t, other))) == Some(t.meta)
    ensures var t := New(name, httpEquiv, property, content, id).value;
            MetaElement.Decode(Render(ReplaceContent(t, other))).value.content == content
  {
    MetaElement.DecodeRender(New(name, httpEquiv, property, content, id).value.meta);
  }

  // ---------------------------------------------------------------------------
  // Presets made of several optional tags

  /** An `_order` slot holding a tag built from a live-element slot. */
  function Wrap(slots: seq<Option<MetaElement.Meta>>): (tags: seq<Option<MetaTag>>)
    ensures |tags| == |slots|
    ensures forall i :: 0 <= i < |slots| ==> (tags[i].Some? <==> slots[i].Some?)
    ensures forall i :: 0 <= i < |slots| ==> tags[i].Some? ==> tags[i].value == MetaTag(slots[i].value, None)
  {
    if |slots| == 0 then []
    else [if slots[0].Some? then Some(MetaTag(slots[0].value, None)) else None] + Wrap(slots[1..])
  }

  /** The renderings of the set slots, in slot order. */
  function Rendered(tags: seq<Option<MetaTag>>): (ls: seq<string>)
    ensures |ls| <= |tags|
  {
    Lines.Kept(Texts(tags))
  }

  /** Each slot's rendering, if it is set. */
  function Texts(tags: seq<Option<MetaTag>>): (ts: seq<Option<string>>)
    ensures |ts| == |tags|
  {
    seq(|tags|, i requires 0 <= i < |tags| => if tags[i].Some? then Some(Render(tags[i].value)) else None)
  }

  /** `_compile` of a preset: the rendered tags of the set slots, one per
      line, or `""`. */
  function Output(tags: seq<Option<MetaTag>>): string
  {
    Lines.Compile(Rendered(tags))
  }

  lemma {:induction false} RenderedAsElement(slots: seq<Option<MetaElement.Meta>>)
    ensures Rendered(Wrap(slots)) == MetaLines.Renders(MetaLines.Spaced, MetaLines.Present(slots))
  {
    if |slots| > 0 {
      assert Wrap(slots)[1..] == Wrap(slots[1..]);
      var ts := Texts(Wrap(slots));
      assert ts[1..] == Texts(Wrap(slots[1..]));
      assert Rendered(Wrap(slots)) == (if ts[0].Some? then [ts[0].value] else []) + Rendered(Wrap(slots[1..]));
      RenderedAsElement(slots[1..]);
      if slots[0].Some? {
        var ms := MetaLines.Present(slots);
        assert ms == [slots[0].value] + MetaLines.Present(slots[1..]);
        assert ms[1..] == MetaLines.Present(slots[1..]);
      }
    }
  }

  /** A preset built from `MetaTag`s writes exactly what the live element with
      the same slots writes. */
  lemma OutputAsElement(slots: seq<Option<MetaElement.Meta>>)
    ensures Output(Wrap(slots)) == MetaLines.Output(MetaLines.Spaced, slots)
  {
    RenderedAsElement(slots);
  }
}
