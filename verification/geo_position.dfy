/** The live `GeoPosition` element: `ICBM`, `geo.position`, `geo.region` and
    `geo.placename` meta tags, each when its argument is given, in that order. */
module GeoPositionElement {

  import opened Wrappers
  import MetaElement
  import MetaLines

  datatype GeoPosition = GeoPosition(icbm: Option<string>, position: Option<string>,
                                     region: Option<string>, placename: Option<string>)

  /** The `name` of each slot's tag, in `_order`. */
  const Names: seq<string> := ["ICBM", "geo.position", "geo.region", "geo.placename"]

  function Values(g: GeoPosition): seq<Option<string>>
  {
    [g.icbm, g.position, g.region, g.placename]
  }

  function Order(g: GeoPosition): (slots: seq<Option<MetaElement.Meta>>)
    ensures |slots| == 4
  {
    MetaLines.Slots(MetaElement.Name, Names, Values(g))
  }

  /** `compile`. */
  function Compile(g: GeoPosition): string
  {
    MetaLines.Output(MetaLines.Spaced, Order(g))
  }

  lemma NamesGood()
    ensures forall i :: 0 <= i < |Names| ==> MetaLines.Value(Names[i])
  {
    assert MetaLines.Value(Names[0]);
    assert MetaLines.Value(Names[1]);
    assert MetaLines.Value(Names[2]);
    assert MetaLines.Value(Names[3]);
  }

  /** The output reads back as one tag per given argument, in the fixed
      order. */
  lemma CompileReads(g: GeoPosition)
    requires forall i :: 0 <= i < 4 ==> MetaLines.OptValue(Values(g)[i])
    ensures MetaLines.Read(Compile(g)) == Some(MetaLines.Picked(MetaElement.Name, Names, Values(g)))
  {
    NamesGood();
    MetaLines.ReadSlots(MetaLines.Spaced, MetaElement.Name, Names, Values(g));
  }

  /** No arguments, and only then, gives `""`. */
  lemma EmptyIff(g: GeoPosition)
    ensures Compile(g) == "" <==> g == GeoPosition(None, None, None, None)
  {
    MetaLines.SlotsEmpty(MetaLines.Spaced, MetaElement.Name, Names, Values(g));
    if g != GeoPosition(None, None, None, None) {
      assert exists i :: 0 <= i < 4 && Values(g)[i].Some?;
    }
  }
}
