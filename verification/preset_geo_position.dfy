/** The `GeoPosition` preset: the same four optional tags as the live element,
    each built as a `MetaTag`. */
module GeoPositionPreset {

  import opened Wrappers
  import MetaTag
  import GeoPositionElement

  /** The attributes the constructor sets: a tag per given argument. */
  function Tags(g: GeoPositionElement.GeoPosition): (tags: seq<Option<MetaTag.MetaTag>>)
    ensures |tags| == 4
    ensures forall i :: 0 <= i < 4 ==> (tags[i].Some? <==> GeoPositionElement.Values(g)[i].Some?)
  {
    MetaTag.Wrap(GeoPositionElement.Order(g))
  }

  /** `_compile`: the preset writes what the live element writes, and nothing
      at all exactly when no argument is given. */
  function Compile(g: GeoPositionElement.GeoPosition): (r: string)
    ensures r == GeoPositionElement.Compile(g)
    ensures r == "" <==> g == GeoPositionElement.GeoPosition(None, None, None, None)
  {
    MetaTag.OutputAsElement(GeoPositionElement.Order(g));
    GeoPositionElement.EmptyIff(g);
    MetaTag.Output(Tags(g))
  }
}
