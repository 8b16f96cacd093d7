/** Elements made of several optional meta tags (Google, Verification,
    OpenGraphWebsite, TwitterCard, GeoPosition and their older copies): each
    slot of the `_order` list holds a meta element or nothing, and the output
    is the present ones, rendered, one per line. `Read` takes such an output
    apart again. */
module MetaLines {

  import opened Wrappers
  import opened Text
  import MetaElement
  import Lines

  /** A slot holds a tag of kind `k` for `disc` exactly when its value is given. */
  function Line(k: MetaElement.Kind, disc: string, value: Option<string>): (r: Option<MetaElement.Meta>)
    ensures r.Some? <==> value.Some?
    ensures r.Some? ==> r.value == MetaElement.Meta(k, disc, value, None)
  {
    if value.Some? then Some(MetaElement.WithContent(k, disc, value.value).value) else None
  }

  /** A value the reader can recover: no double quote and no newline. */
  predicate Value(v: string)
  {
    '"' !in v && '\n' !in v
  }

  predicate OptValue(v: Option<string>)
  {
    v.Some? ==> Value(v.value)
  }

  /** A slot filled from a recoverable name and value holds a recoverable
      element. */
  lemma LineGood(k: MetaElement.Kind, disc: string, value: Option<string>)
    requires Value(disc) && OptValue(value)
    ensures Line(k, disc, value).Some? ==> Good(Line(k, disc, value).value)
  {
  }

  /** The one meta element a slot contributes, if any. */
  function Listed(o: Option<MetaElement.Meta>): (ms: seq<MetaElement.Meta>)
    ensures |ms| <= 1
  {
    if o.Some? then [o.value] else []
  }

  /** The list comprehension's filter: the set slots, in slot order. */
  function Present(slots: seq<Option<MetaElement.Meta>>): (ms: seq<MetaElement.Meta>)
    ensures |ms| <= |slots|
    ensures |ms| == 0 <==> forall i :: 0 <= i < |slots| ==> slots[i].None?
  {
    if |slots| == 0 then []
    else if slots[0].Some? then [slots[0].value] + Present(slots[1..])
    else
      var rest := Present(slots[1..]);
      assert forall i :: 1 <= i < |slots| ==> slots[i] == slots[1..][i - 1];
      rest
  }

  lemma PresentCons(o: Option<MetaElement.Meta>, rest: seq<Option<MetaElement.Meta>>)
    ensures Present([o] + rest) == Listed(o) + Present(rest)
  {
    assert ([o] + rest)[1..] == rest;
  }

  /** How the meta tags are spelled: the current package writes every
      fragment with a trailing space (`<meta name="N" content="C" >`), the
      archived and older packages separate them by single spaces
      (`<meta name="N" content="C">`). */
  datatype Style = Spaced | Tight

  function RenderIn(style: Style, m: MetaElement.Meta): string
  {
    if style == Spaced then MetaElement.Render(m) else MetaElement.TightRender(m)
  }

  function Renders(style: Style, ms: seq<MetaElement.Meta>): (ls: seq<string>)
    ensures |ls| == |ms|
    ensures forall i :: 0 <= i < |ms| ==> ls[i] == RenderIn(style, ms[i])
  {
    if |ms| == 0 then [] else [RenderIn(style, ms[0])] + Renders(style, ms[1..])
  }

  /** `compile`/`_compile` of such an element. */
  function Output(style: Style, slots: seq<Option<MetaElement.Meta>>): string
  {
    Lines.Compile(Renders(style, Present(slots)))
  }

  /** Reads each line as a meta tag. */
  function DecodeAll(lines: seq<string>): (r: Option<seq<MetaElement.Meta>>)
    ensures r.Some? ==> |r.value| == |lines|
  {
    if |lines| == 0 then Some([])
    else
      match MetaElement.Decode(lines[0])
      case None => None
      case Some(m) =>
        match DecodeAll(lines[1..])
        case None => None
        case Some(rest) => Some([m] + rest)
  }

  /** The inverse of `Output`: the empty text is no tags, anything else one
      meta tag per line. */
  function Read(s: string): Option<seq<MetaElement.Meta>>
  {
    if s == "" then Some([]) else DecodeAll(Split(s, '\n'))
  }

  /** Values the reader can recover: quote-free and newline-free. */
  predicate Good(m: MetaElement.Meta)
  {
    MetaElement.Clean(m) && MetaElement.OneLine(m)
  }

  predicate AllGood(slots: seq<Option<MetaElement.Meta>>)
  {
    forall i :: 0 <= i < |slots| ==> slots[i].Some? ==> Good(slots[i].value)
  }

  lemma {:induction false} PresentGood(slots: seq<Option<MetaElement.Meta>>)
    requires AllGood(slots)
    ensures forall j :: 0 <= j < |Present(slots)| ==> Good(Present(slots)[j])
  {
    if |slots| > 0 {
      assert AllGood(slots[1..]) by {
        forall i | 0 <= i < |slots[1..]| ensures slots[1..][i].Some? ==> Good(slots[1..][i].value) {
          assert slots[1..][i] == slots[i + 1];
        }
      }
      PresentGood(slots[1..]);
    }
  }

  lemma DecodeAllCons(ls: seq<string>, m: MetaElement.Meta, rest: seq<MetaElement.Meta>)
    requires |ls| > 0 && MetaElement.Decode(ls[0]) == Some(m) && DecodeAll(ls[1..]) == Some(rest)
    ensures DecodeAll(ls) == Some([m] + rest)
  {
  }

  lemma DecodeRenders(style: Style, ms: seq<MetaElement.Meta>)
    requires forall j :: 0 <= j < |ms| ==> MetaElement.Clean(ms[j])
    ensures DecodeAll(Renders(style, ms)) == Some(ms)
  {
    var ls := Renders(style, ms);
    forall j | 0 <= j < |ms| ensures MetaElement.Decode(ls[j]) == Some(ms[j]) {
      DecodeRenderIn(style, ms[j]);
    }
    DecodeEach(ls, ms);
  }

  /** Lines that each read as a tag read, together, as those tags. */
  lemma {:induction false} DecodeEach(ls: seq<string>, ms: seq<MetaElement.Meta>)
    requires |ls| == |ms|
    requires forall j :: 0 <= j < |ls| ==> MetaElement.Decode(ls[j]) == Some(ms[j])
    ensures DecodeAll(ls) == Some(ms)
  {
    if |ls| > 0 {
      DecodeEach(ls[1..], ms[1..]);
      DecodeAllCons(ls, ms[0], ms[1..]);
      assert ms == [ms[0]] + ms[1..];
    }
  }

  lemma DecodeRenderIn(style: Style, m: MetaElement.Meta)
    requires MetaElement.Clean(m)
    ensures MetaElement.Decode(RenderIn(style, m)) == Some(m)
  {
    MetaElement.DecodeIff(RenderIn(style, m), m);
  }

  /** The output reads back as exactly the present meta elements, in slot
      order. */
  lemma ReadOutput(style: Style, slots: seq<Option<MetaElement.Meta>>)
    requires AllGood(slots)
    ensures Read(Output(style, slots)) == Some(Present(slots))
  {
    var ms := Present(slots);
    var ls := Renders(style, ms);
    PresentGood(slots);
    forall j | 0 <= j < |ms| ensures '\n' !in ls[j] && |ls[j]| > 0 {
      MetaElement.RenderOneLine(ms[j]);
    }
    Lines.CompileEmpty(ls);
    if |ms| > 0 {
      Lines.CompileSplit(ls);
      DecodeRenders(style, ms);
    }
  }

  /** The output is empty exactly when no slot is set. */
  lemma OutputEmpty(style: Style, slots: seq<Option<MetaElement.Meta>>)
    ensures Output(style, slots) == "" <==> forall i :: 0 <= i < |slots| ==> slots[i].None?
  {
    var ls := Renders(style, Present(slots));
    forall j | 0 <= j < |ls| ensures |ls[j]| > 0 {
    }
    Lines.CompileEmpty(ls);
  }

  // ---------------------------------------------------------------------------
  // Slots filled from a table of names

  /** The slots of an element whose `_order` pairs each name of `names` with
      the argument in the same position. */
  function Slots(k: MetaElement.Kind, names: seq<string>, values: seq<Option<string>>): (slots: seq<Option<MetaElement.Meta>>)
    requires |names| == |values|
    ensures |slots| == |names|
    ensures forall i :: 0 <= i < |slots| ==> slots[i] == Line(k, names[i], values[i])
  {
    if |names| == 0 then [] else [Line(k, names[0], values[0])] + Slots(k, names[1..], values[1..])
  }

  /** The tags such an element should write: `Meta(k=names[i], content=v)` for
      each given argument `v`, in table order. */
  function Picked(k: MetaElement.Kind, names: seq<string>, values: seq<Option<string>>): (ms: seq<MetaElement.Meta>)
    requires |names| == |values|
    ensures |ms| <= |names|
    ensures |ms| == 0 <==> forall i :: 0 <= i < |values| ==> values[i].None?
  {
    if |names| == 0 then []
    else
      var rest := Picked(k, names[1..], values[1..]);
      assert forall i :: 1 <= i < |values| ==> values[i] == values[1..][i - 1];
      match values[0]
      case Some(v) => [MetaElement.Meta(k, names[0], Some(v), None)] + rest
      case None => rest
  }

  lemma {:induction false} SlotsPresent(k: MetaElement.Kind, names: seq<string>, values: seq<Option<string>>)
    requires |names| == |values|
    ensures Present(Slots(k, names, values)) == Picked(k, names, values)
  {
    if |names| > 0 {
      SlotsPresent(k, names[1..], values[1..]);
      PresentCons(Line(k, names[0], values[0]), Slots(k, names[1..], values[1..]));
    }
  }

  lemma SlotsGood(k: MetaElement.Kind, names: seq<string>, values: seq<Option<string>>)
    requires |names| == |values|
    requires forall i :: 0 <= i < |names| ==> Value(names[i])
    requires forall i :: 0 <= i < |values| ==> OptValue(values[i])
    ensures AllGood(Slots(k, names, values))
  {
    var slots := Slots(k, names, values);
    forall i | 0 <= i < |slots| ensures slots[i].Some? ==> Good(slots[i].value) {
      LineGood(k, names[i], values[i]);
    }
  }

  /** The output of a table-filled element reads back as the picked tags. */
  lemma ReadSlots(style: Style, k: MetaElement.Kind, names: seq<string>, values: seq<Option<string>>)
    requires |names| == |values|
    requires forall i :: 0 <= i < |names| ==> Value(names[i])
    requires forall i :: 0 <= i < |values| ==> OptValue(values[i])
    ensures Read(Output(style, Slots(k, names, values))) == Some(Picked(k, names, values))
  {
    SlotsGood(k, names, values);
    SlotsPresent(k, names, values);
    ReadOutput(style, Slots(k, names, values));
  }

  /** Its output is empty exactly when no argument is given. */
  lemma SlotsEmpty(style: Style, k: MetaElement.Kind, names: seq<string>, values: seq<Option<string>>)
    requires |names| == |values|
    ensures Output(style, Slots(k, names, values)) == "" <==> forall i :: 0 <= i < |values| ==> values[i].None?
  {
    OutputEmpty(style, Slots(k, names, values));
  }

  /** The same for a table of six names, stated on the six values. */
  lemma SlotsEmptySix(style: Style, k: MetaElement.Kind, names: seq<string>, a: Option<string>, b: Option<string>,
                      c: Option<string>, d: Option<string>, e: Option<string>, f: Option<string>)
    requires |names| == 6
    ensures Output(style, Slots(k, names, [a, b, c, d, e, f])) == ""
            <==> a.None? && b.None? && c.None? && d.None? && e.None? && f.None?
  {
    var vs := [a, b, c, d, e, f];
    if a.Some? { SlotsSome(style, k, names, vs, 0); }
    else if b.Some? { SlotsSome(style, k, names, vs, 1); }
    else if c.Some? { SlotsSome(style, k, names, vs, 2); }
    else if d.Some? { SlotsSome(style, k, names, vs, 3); }
    else if e.Some? { SlotsSome(style, k, names, vs, 4); }
    else if f.Some? { SlotsSome(style, k, names, vs, 5); }
    else {
      assert forall i :: 0 <= i < 6 ==> vs[i].None?;
      SlotsEmpty(style, k, names, vs);
    }
  }

  /** One given value is enough for some output. */
  lemma SlotsSome(style: Style, k: MetaElement.Kind, names: seq<string>, values: seq<Option<string>>, i: int)
    requires |names| == |values| && 0 <= i < |values| && values[i].Some?
    ensures Output(style, Slots(k, names, values)) != ""
  {
    SlotsEmpty(style, k, names, values);
  }
}
